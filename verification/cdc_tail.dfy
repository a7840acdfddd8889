/** The change-stream tail: a bounded buffer, numbered records and `since` polling. */
module CdcTail {
  import opened Collections

  /** What becomes of one message: a record, or an error that leaves the decoder.  A value the
      decoder cannot read is still a record; only later failures leave it. */
  datatype Message = Decodes(value: int) | Raises

  datatype Record = Record(number: nat, value: int)

  /** The records of every message handled so far, each numbered by its message. */
  function Appended(log: seq<Message>): seq<Record> {
    if log == [] then []
    else
      var n := |log| - 1;
      var before := Appended(log[..n]);
      if log[n].Decodes? then before + [Record(n + 1, log[n].value)] else before
  }

  /** Where the last `n` of `length` items start. */
  function From(length: nat, n: nat): nat { if length <= n then 0 else length - n }

  function Last<T>(s: seq<T>, n: nat): seq<T> { s[From(|s|, n)..] }

  /** The records numbered past `since`, in their order. */
  function After(rs: seq<Record>, since: nat): seq<Record> {
    if rs == [] then []
    else
      var n := |rs| - 1;
      if rs[n].number > since then After(rs[..n], since) + [rs[n]] else After(rs[..n], since)
  }

  /** A poll of the buffer, newest first.  Numbers start at one, so no `since` is zero. */
  function Poll(buffer: seq<Record>, limit: nat, since: nat): seq<Record> {
    Take(After(Reversed(buffer), since), limit)
  }

  // ----- numbering

  /** Every record's number is past the first bound and not past the second. */
  ghost predicate Numbered(rs: seq<Record>, past: nat, upTo: nat) {
    forall i :: 0 <= i < |rs| ==> past < rs[i].number <= upTo
  }

  lemma {:induction false} AppendedNumbers(log: seq<Message>)
    ensures Numbered(Appended(log), 0, |log|) && |Appended(log)| <= |log|
  {
    if log != [] {
      AppendedNumbers(log[..|log| - 1]);
    }
  }

  ghost predicate Rising(rs: seq<Record>) {
    forall i, j :: 0 <= i < j < |rs| ==> rs[i].number < rs[j].number
  }

  lemma {:induction false} AppendedRises(log: seq<Message>)
    ensures Rising(Appended(log))
  {
    if log != [] {
      AppendedRises(log[..|log| - 1]);
      AppendedNumbers(log[..|log| - 1]);
    }
  }

  /** Later messages only add records, with later numbers. */
  lemma {:induction false} AppendedConcat(a: seq<Message>, b: seq<Message>) returns (more: seq<Record>)
    ensures Appended(a + b) == Appended(a) + more
    ensures Numbered(more, |a|, |a| + |b|)
  {
    if b == [] {
      assert a + b == a;
      more := [];
    } else {
      var n := |b| - 1;
      more := AppendedConcat(a, b[..n]);
      assert (a + b)[..|a + b| - 1] == a + b[..n];
      if b[n].Decodes? {
        more := more + [Record(|a| + n + 1, b[n].value)];
      }
    }
  }

  ghost predicate AllDecode(log: seq<Message>) { forall i :: 0 <= i < |log| ==> log[i].Decodes? }

  /** Numbers run without a gap exactly when no message raised. */
  lemma {:induction false} ConsecutiveIff(log: seq<Message>)
    ensures AllDecode(log) <==> |Appended(log)| == |log|
    ensures AllDecode(log) ==> forall i :: 0 <= i < |log| ==> Appended(log)[i] == Record(i + 1, log[i].value)
  {
    AppendedNumbers(log);
    if log != [] {
      var n := |log| - 1;
      ConsecutiveIff(log[..n]);
      AppendedNumbers(log[..n]);
      assert AllDecode(log) <==> AllDecode(log[..n]) && log[n].Decodes?;
    }
  }

  // ----- what a poll returns

  /** `since` falls before the record at `cut`. */
  ghost predicate CutAt(rs: seq<Record>, since: nat, cut: nat) {
    && cut <= |rs|
    && (forall i :: 0 <= i < cut ==> rs[i].number <= since)
    && (forall i :: cut <= i < |rs| ==> rs[i].number > since)
  }

  lemma {:induction false} FindCut(rs: seq<Record>, since: nat) returns (cut: nat)
    requires Rising(rs)
    ensures CutAt(rs, since, cut)
  {
    var n := |rs| - 1;
    if rs == [] || rs[n].number <= since {
      cut := |rs|;
    } else {
      cut := FindCut(rs[..n], since);
    }
  }

  lemma {:induction false} AfterNone(rs: seq<Record>, since: nat)
    requires forall i :: 0 <= i < |rs| ==> rs[i].number <= since
    ensures After(rs, since) == []
  {
    if rs != [] {
      AfterNone(rs[..|rs| - 1], since);
    }
  }

  lemma {:induction false} AfterAll(rs: seq<Record>, since: nat)
    requires forall i :: 0 <= i < |rs| ==> rs[i].number > since
    ensures After(rs, since) == rs
  {
    if rs != [] {
      AfterAll(rs[..|rs| - 1], since);
    }
  }

  lemma {:induction false} AfterConcat(a: seq<Record>, b: seq<Record>, since: nat)
    ensures After(a + b, since) == After(a, since) + After(b, since)
  {
    if b == [] {
      assert a + b == a;
    } else {
      var n := |b| - 1;
      AfterConcat(a, b[..n], since);
      assert (a + b)[..|a + b| - 1] == a + b[..n];
    }
  }

  lemma AfterTwoParts(below: seq<Record>, above: seq<Record>, since: nat)
    requires forall i :: 0 <= i < |below| ==> below[i].number <= since
    requires forall i :: 0 <= i < |above| ==> above[i].number > since
    ensures After(below + above, since) == above && After(above + below, since) == above
  {
    AfterNone(below, since);
    AfterAll(above, since);
    AfterConcat(below, above, since);
    AfterConcat(above, below, since);
  }

  lemma ReversedConcat<T>(a: seq<T>, b: seq<T>)
    ensures Reversed(a + b) == Reversed(b) + Reversed(a)
  {
  }

  /** The records past the cut are those after `since`, in either order. */
  lemma AfterCut(rs: seq<Record>, since: nat, cut: nat)
    requires CutAt(rs, since, cut)
    ensures After(rs, since) == rs[cut..]
    ensures After(Reversed(rs), since) == Reversed(rs[cut..])
  {
    assert rs == rs[..cut] + rs[cut..];
    AfterTwoParts(rs[..cut], rs[cut..], since);
    ReversedConcat(rs[..cut], rs[cut..]);
    AfterTwoParts(Reversed(rs[..cut]), Reversed(rs[cut..]), since);
  }

  /** A poll of a buffer of the last `size` records returns, newest first, the newest unseen
      records, up to the limit and the size of the buffer. */
  lemma PollIsNewestUnseen(rs: seq<Record>, size: nat, limit: nat, since: nat)
    requires Rising(rs)
    ensures Poll(Last(rs, size), limit, since) == Reversed(Last(After(rs, since), Least(limit, size)))
  {
    var cut := FindCut(rs, since);
    AfterCut(rs, since, cut);
    var start := From(|rs|, size);
    var kept := if cut <= start then 0 else cut - start;
    AfterCut(Last(rs, size), since, kept);
    TakeReversed(rs[start..][kept..], limit);
    SuffixOfSuffix(rs, size, limit, cut);
  }

  lemma SuffixOfSuffix<T>(s: seq<T>, size: nat, limit: nat, cut: nat)
    requires cut <= |s|
    ensures
      var start := From(|s|, size);
      var kept := if cut <= start then 0 else cut - start;
      Last(s[start..][kept..], limit) == Last(s[cut..], Least(limit, size))
  {
    var start := From(|s|, size);
    var kept := if cut <= start then 0 else cut - start;
    assert s[start..][kept..] == s[start + kept..];
  }

  lemma TakeReversed<T>(s: seq<T>, n: nat)
    ensures Take(Reversed(s), n) == Reversed(Last(s, n))
  {
  }

  /** A poll holds everything unseen exactly when no more arrived than it can carry. */
  lemma PollIsWholeIff(rs: seq<Record>, size: nat, limit: nat, since: nat)
    requires Rising(rs)
    ensures Poll(Last(rs, size), limit, since) == Reversed(After(rs, since))
            <==> |After(rs, since)| <= Least(limit, size)
  {
    PollIsNewestUnseen(rs, size, limit, since);
  }

  /** The records past a length of the log: the first of them is the next message's own
      exactly when that message did not raise. */
  lemma FirstUnseen(log: seq<Message>, since: nat) returns (more: seq<Record>)
    requires since <= |log|
    ensures Appended(log) == Appended(log[..since]) + more && After(Appended(log), since) == more
    ensures Numbered(more, since, |log|) && Rising(more)
    ensures more != [] && more[0].number == since + 1 <==> since < |log| && log[since].Decodes?
  {
    more := Unseen(log, since);
    AppendedRises(log);
    RisingRest(Appended(log[..since]), more);
    if since < |log| {
      var later := NextUnseen(log, since);
      FirstOf(Appended(log[..since]), more, later, log[since], since);
    }
  }

  lemma Unseen(log: seq<Message>, since: nat) returns (more: seq<Record>)
    requires since <= |log|
    ensures Appended(log) == Appended(log[..since]) + more && After(Appended(log), since) == more
    ensures Numbered(more, since, |log|)
  {
    assert log == log[..since] + log[since..];
    more := AppendedConcat(log[..since], log[since..]);
    AppendedNumbers(log[..since]);
    AfterTwoParts(Appended(log[..since]), more, since);
  }

  lemma RisingRest(a: seq<Record>, b: seq<Record>)
    requires Rising(a + b)
    ensures Rising(b)
  {
    forall i, j | 0 <= i < j < |b| ensures b[i].number < b[j].number {
      assert (a + b)[|a| + i].number < (a + b)[|a| + j].number;
    }
  }

  /** The first record past a message, by what became of it. */
  lemma FirstOf(seen: seq<Record>, more: seq<Record>, later: seq<Record>, m: Message, since: nat)
    requires seen + more == if m.Decodes? then seen + [Record(since + 1, m.value)] + later else seen + later
    requires forall i :: 0 <= i < |later| ==> later[i].number > since + 1
    ensures more != [] && more[0].number == since + 1 <==> m.Decodes?
  {
    assert more == (seen + more)[|seen|..];
    if m.Decodes? {
      assert more == [Record(since + 1, m.value)] + later;
    } else {
      assert more == later;
    }
  }

  lemma NextUnseen(log: seq<Message>, since: nat) returns (later: seq<Record>)
    requires since < |log|
    ensures Numbered(later, since + 1, |log|)
    ensures log[since].Raises? ==> Appended(log) == Appended(log[..since]) + later
    ensures log[since].Decodes? ==>
              Appended(log) == Appended(log[..since]) + [Record(since + 1, log[since].value)] + later
  {
    assert log == log[..since + 1] + log[since + 1..];
    later := AppendedConcat(log[..since + 1], log[since + 1..]);
    assert log[..since + 1][..since] == log[..since];
  }

  /** A client sees the number after the one it asked from exactly when nothing was passed over
      and the next message did not raise: a loss always shows, and a message that raised looks
      like one. */
  lemma LossShows(log: seq<Message>, size: nat, limit: nat, since: nat)
    requires size > 0 && limit > 0 && since <= |log|
    ensures
      var got := Poll(Last(Appended(log), size), limit, since);
      got != [] && got[|got| - 1].number == since + 1 <==>
      since < |log| && log[since].Decodes? && |After(Appended(log), since)| <= Least(limit, size)
  {
    var rs := Appended(log);
    AppendedRises(log);
    PollIsNewestUnseen(rs, size, limit, since);
    var more := FirstUnseen(log, since);
    OldestIsFirst(more, Least(limit, size), since);
  }

  lemma OldestIsFirst(more: seq<Record>, carry: nat, since: nat)
    requires carry > 0 && Rising(more) && forall i :: 0 <= i < |more| ==> more[i].number > since
    ensures
      var got := Reversed(Last(more, carry));
      got != [] && got[|got| - 1].number == since + 1 <==>
      more != [] && more[0].number == since + 1 && |more| <= carry
  {
    if more != [] {
      var start := From(|more|, carry);
      assert Reversed(Last(more, carry))[|Last(more, carry)| - 1] == more[start];
      assert start > 0 ==> more[0].number < more[start].number;
    }
  }

  // ----- a client that polls with the newest number it has

  datatype Client = Client(got: seq<Record>, since: nat)

  function PollOnce(c: Client, buffer: seq<Record>, limit: nat): Client {
    var answer := Poll(buffer, limit, c.since);
    Client(c.got + Reversed(answer), if answer == [] then c.since else answer[0].number)
  }

  /** The client after polling when the log has had each of these lengths. */
  function Polls(log: seq<Message>, cuts: seq<nat>, size: nat, limit: nat): Client
    requires forall i :: 0 <= i < |cuts| ==> cuts[i] <= |log|
  {
    if cuts == [] then Client([], 0)
    else
      var n := |cuts| - 1;
      PollOnce(Polls(log, cuts[..n], size, limit), Last(Appended(log[..cuts[n]]), size), limit)
  }

  ghost predicate Growing(log: seq<Message>, cuts: seq<nat>) {
    && (forall i :: 0 <= i < |cuts| ==> cuts[i] <= |log|)
    && (forall i :: 0 <= i < |cuts| - 1 ==> cuts[i] <= cuts[i + 1])
  }

  function Newest(rs: seq<Record>): nat { if rs == [] then 0 else rs[|rs| - 1].number }

  function SeenUpTo(cuts: seq<nat>): nat { if cuts == [] then 0 else cuts[|cuts| - 1] }

  /** The records that came between two lengths of the log. */
  function Arrived(log: seq<Message>, a: nat, b: nat): seq<Record>
    requires a <= b <= |log|
  {
    var rs, k := Appended(log[..b]), |Appended(log[..a])|;
    if k <= |rs| then rs[k..] else []
  }

  lemma ArrivedIsAfter(log: seq<Message>, a: nat, b: nat)
    requires a <= b <= |log|
    ensures Arrived(log, a, b) == After(Appended(log[..b]), Newest(Appended(log[..a])))
    ensures Appended(log[..b]) == Appended(log[..a]) + Arrived(log, a, b)
  {
    assert log[..b] == log[..a] + log[a..b];
    var more := AppendedConcat(log[..a], log[a..b]);
    AppendedRises(log[..a]);
    AppendedNumbers(log[..a]);
    var seen, all := Appended(log[..a]), Appended(log[..b]);
    assert CutAt(all, Newest(seen), |seen|);
    AfterCut(all, Newest(seen), |seen|);
  }

  /** How many records polling at these moments passes over. */
  function Missed(log: seq<Message>, cuts: seq<nat>, carry: nat): nat
    requires Growing(log, cuts)
  {
    if cuts == [] then 0
    else
      var n := |cuts| - 1;
      assert n > 0 ==> cuts[n - 1] <= cuts[n - 1 + 1];
      var came := |Arrived(log, SeenUpTo(cuts[..n]), cuts[n])|;
      Missed(log, cuts[..n], carry) + if came <= carry then 0 else came - carry
  }

  lemma PollOnceCarries(c: Client, log: seq<Message>, a: nat, b: nat, size: nat, limit: nat)
    requires a <= b <= |log| && size > 0 && limit > 0
    requires c.since == Newest(Appended(log[..a]))
    ensures
      var next := PollOnce(c, Last(Appended(log[..b]), size), limit);
      && next.since == Newest(Appended(log[..b]))
      && next.got == c.got + Last(Arrived(log, a, b), Least(limit, size))
  {
    AppendedRises(log[..b]);
    ArrivedIsAfter(log, a, b);
    PollIsNewestUnseen(Appended(log[..b]), size, limit, c.since);
    NewestOfLast(Appended(log[..a]), Arrived(log, a, b), Least(limit, size));
  }

  lemma NewestOfLast(seen: seq<Record>, came: seq<Record>, carry: nat)
    requires carry > 0
    ensures
      var answer := Reversed(Last(came, carry));
      && Reversed(answer) == Last(came, carry)
      && (answer == [] <==> came == [])
      && (answer == [] ==> Newest(seen + came) == Newest(seen))
      && (answer != [] ==> answer[0].number == Newest(seen + came))
  {
    if came == [] {
      assert seen + came == seen;
    }
  }

  /** Nothing comes twice and nothing is invented: what the client holds and what was missed
      add up to what arrived; and it holds exactly the log when nothing was missed. */
  lemma {:induction false} PollsAccount(log: seq<Message>, cuts: seq<nat>, size: nat, limit: nat)
    requires Growing(log, cuts) && size > 0 && limit > 0
    ensures
      var c, all := Polls(log, cuts, size, limit), Appended(log[..SeenUpTo(cuts)]);
      && c.since == Newest(all)
      && |c.got| + Missed(log, cuts, Least(limit, size)) == |all|
      && (Missed(log, cuts, Least(limit, size)) == 0 <==> c.got == all)
  {
    if cuts != [] {
      var n := |cuts| - 1;
      assert n > 0 ==> cuts[n - 1] <= cuts[n - 1 + 1];
      var a, b := SeenUpTo(cuts[..n]), cuts[n];
      PollsAccount(log, cuts[..n], size, limit);
      PollOnceCarries(Polls(log, cuts[..n], size, limit), log, a, b, size, limit);
      ArrivedIsAfter(log, a, b);
    }
  }

  // ----- the buffer

  class Tail {
    const size: nat
    var buffer: seq<Record>
    var number: nat
    var consumed: nat
    ghost var log: seq<Message>

    ghost predicate Valid()
      reads this
    {
      && number == consumed == |log|
      && buffer == Last(Appended(log), size)
    }

    constructor (size: nat)
      ensures Valid() && this.size == size && log == []
    {
      this.size := size;
      buffer, number, consumed, log := [], 0, 0, [];
    }

    /** Take the messages in order; an error abandons the rest of them. */
    method Ingest(messages: seq<Message>) returns (handled: nat)
      requires Valid()
      modifies this
      ensures Valid()
      ensures handled <= |messages| && log == old(log) + messages[..handled]
      ensures forall i :: 0 <= i < handled - 1 ==> messages[i].Decodes?
      ensures handled < |messages| ==> handled > 0 && messages[handled - 1].Raises?
    {
      handled := 0;
      while handled < |messages|
        invariant handled <= |messages| && Valid()
        invariant log == old(log) + messages[..handled]
        invariant forall i :: 0 <= i < handled ==> messages[i].Decodes?
      {
        var m := messages[handled];
        consumed, number := consumed + 1, number + 1;
        ghost var before := log;
        log, handled := log + [m], handled + 1;
        assert log[..|log| - 1] == before;
        match m
        case Raises => return;
        case Decodes(value) =>
          buffer := buffer + [Record(number, value)];
          if |buffer| > size {
            buffer := buffer[1..];
          }
      }
    }

    /** What a poll returns: the newest unseen records of the whole log, newest first. */
    method Records(limit: nat, since: nat) returns (rs: seq<Record>)
      requires Valid()
      ensures rs == Reversed(Last(After(Appended(log), since), Least(limit, size)))
    {
      AppendedRises(log);
      PollIsNewestUnseen(Appended(log), size, limit, since);
      rs := Poll(buffer, limit, since);
    }
  }
}
