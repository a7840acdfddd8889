/** Exactly-once, in-order session timelines.

A transaction appends one numbered event to a session's timeline, but only if the session
is open, the number has not been applied, and the number before it has.  A run is any
sequence of openings and attempts, over any sessions, with any replays and gaps.
 */
module Sessions {

  datatype Session = Session(user: string, id: string)

  datatype Event = Event(id: string, at: int, kind: string, payload: string)

  /** The three tables: open sessions, applied numbers, and the timeline itself. */
  datatype State = State(
    open: set<Session>,
    applied: set<(Session, nat)>,
    timeline: map<(Session, nat), Event>)

  const EMPTY := State({}, {}, map[])

  /** The transaction's IF: the first number has no predecessor to look for. */
  predicate CanApply(s: State, session: Session, number: nat) {
    && session in s.open
    && (session, number) !in s.applied
    && (number > 0 ==> (session, number - 1) in s.applied)
  }

  function Apply(s: State, session: Session, number: nat, event: Event): State {
    if CanApply(s, session, number)
    then State(s.open, s.applied + {(session, number)}, s.timeline[(session, number) := event])
    else s
  }

  function OpenSession(s: State, session: Session): State {
    s.(open := s.open + {session})
  }

  datatype Step =
    | Open(session: Session)
    | Attempt(session: Session, number: nat, event: Event)

  function Next(s: State, step: Step): State {
    match step
    case Open(session) => OpenSession(s, session)
    case Attempt(session, number, event) => Apply(s, session, number, event)
  }

  function Run(steps: seq<Step>): State {
    if steps == [] then EMPTY
    else Next(Run(steps[..|steps| - 1]), steps[|steps| - 1])
  }

  // ----- what a session was asked

  predicate Opened(steps: seq<Step>, session: Session) {
    exists i :: 0 <= i < |steps| && steps[i] == Open(session)
  }

  /** The numbers attempted on a session since it was opened. */
  function Attempts(steps: seq<Step>, session: Session): seq<nat> {
    if steps == [] then []
    else
      var init, last := steps[..|steps| - 1], steps[|steps| - 1];
      if last.Attempt? && last.session == session && Opened(init, session)
      then Attempts(init, session) + [last.number]
      else Attempts(init, session)
  }

  /** `at` picks out 0, 1, .., k-1 from the attempts, in that order. */
  ghost predicate Picks(attempts: seq<nat>, at: seq<nat>) {
    && (forall i :: 0 <= i < |at| ==> at[i] < |attempts| && attempts[at[i]] == i)
    && (forall i, j :: 0 <= i < j < |at| ==> at[i] < at[j])
  }

  /** Counting up greedily through the attempts. */
  function Greedy(attempts: seq<nat>): nat {
    if attempts == [] then 0
    else
      var k := Greedy(attempts[..|attempts| - 1]);
      if attempts[|attempts| - 1] == k then k + 1 else k
  }

  /** Greedy finds a run of the length it counts. */
  lemma {:induction false} GreedyPicks(attempts: seq<nat>) returns (at: seq<nat>)
    ensures Picks(attempts, at) && |at| == Greedy(attempts)
  {
    if attempts == [] {
      at := [];
    } else {
      var n := |attempts| - 1;
      at := GreedyPicks(attempts[..n]);
      if attempts[n] == |at| {
        at := at + [n];
      }
    }
  }

  /** No run picked out of the attempts, greedily or not, is longer. */
  lemma {:induction false} GreedyIsLongest(attempts: seq<nat>, at: seq<nat>)
    requires Picks(attempts, at)
    ensures |at| <= Greedy(attempts)
    decreases |attempts|
  {
    if at != [] {
      var n, m := |attempts| - 1, |at| - 1;
      if at[m] == n {
        // The last attempt is the run's last number; the rest of the run comes before it.
        GreedyIsLongest(attempts[..n], at[..m]);
        assert attempts[n] == m;
      } else {
        forall i | 0 <= i < |at| ensures at[i] < n {
          assert i < m ==> at[i] < at[m];
        }
        GreedyIsLongest(attempts[..n], at);
      }
    }
  }

  // ----- the tables over a run

  lemma {:induction false} OpenIsOpened(steps: seq<Step>, session: Session)
    ensures session in Run(steps).open <==> Opened(steps, session)
  {
    if steps != [] {
      var n := |steps| - 1;
      OpenIsOpened(steps[..n], session);
      if Opened(steps, session) && steps[n] != Open(session) {
        var i :| 0 <= i < |steps| && steps[i] == Open(session);
        assert steps[..n][i] == Open(session);
      }
      if Opened(steps[..n], session) {
        var i :| 0 <= i < n && steps[..n][i] == Open(session);
        assert steps[i] == Open(session);
      }
    }
  }

  /** The session's applied numbers, and its rows, are exactly those below `k`. */
  ghost predicate Prefix(s: State, session: Session, k: nat) {
    forall i: nat ::
      ((session, i) in s.applied <==> i < k) && ((session, i) in s.timeline <==> i < k)
  }

  /** Only the next number in order extends a session; every other step leaves it. */
  lemma NextPrefix(s: State, session: Session, k: nat, step: Step)
    requires Prefix(s, session, k)
    ensures
      var grows := step.Attempt? && step.session == session && session in s.open && step.number == k;
      Prefix(Next(s, step), session, if grows then k + 1 else k)
  {
    if step.Attempt? && step.session == session {
      assert (session, step.number) in s.applied <==> step.number < k;
      if step.number > 0 {
        assert (session, step.number - 1) in s.applied <==> step.number - 1 < k;
      }
    }
  }

  /** Whatever was attempted, a session's applied numbers are 0, 1, .., k-1 with k what
      greedy counting finds, and its timeline has exactly those rows. */
  lemma {:induction false} AppliedIsPrefix(steps: seq<Step>, session: Session)
    ensures Prefix(Run(steps), session, Greedy(Attempts(steps, session)))
  {
    if steps != [] {
      var init, last := steps[..|steps| - 1], steps[|steps| - 1];
      AppliedIsPrefix(init, session);
      OpenIsOpened(init, session);
      NextPrefix(Run(init), session, Greedy(Attempts(init, session)), last);
      var before := Attempts(init, session);
      if Attempts(steps, session) != before {
        assert (before + [last.number])[..|before|] == before;
      }
    }
  }

  /** The timeline of every session is the longest run 0, 1, .., k-1 that is a subsequence
      of the attempts made since it was opened. */
  lemma TimelineIsLongestRun(steps: seq<Step>, session: Session, at: seq<nat>)
    requires Picks(Attempts(steps, session), at)
    ensures forall i: nat :: i < |at| ==> (session, i) in Run(steps).timeline
    ensures exists best ::
              && Picks(Attempts(steps, session), best)
              && forall i: nat :: (session, i) in Run(steps).timeline <==> i < |best|
  {
    AppliedIsPrefix(steps, session);
    GreedyIsLongest(Attempts(steps, session), at);
    var best := GreedyPicks(Attempts(steps, session));
  }

  /** Timeline and applied numbers always name the same rows. */
  lemma TimelineMatchesApplied(steps: seq<Step>)
    ensures Run(steps).timeline.Keys == Run(steps).applied
  {
    forall k ensures k in Run(steps).timeline <==> k in Run(steps).applied {
      AppliedIsPrefix(steps, k.0);
      assert k == (k.0, k.1);
    }
  }

  /** A row, once written, stays as it is, whatever comes after. */
  lemma {:induction false} NeverOverwritten(steps: seq<Step>, more: seq<Step>)
    ensures forall k :: k in Run(steps).timeline ==>
              k in Run(steps + more).timeline && Run(steps + more).timeline[k] == Run(steps).timeline[k]
    decreases |more|
  {
    if more == [] {
      assert steps + more == steps;
    } else {
      var n := |more| - 1;
      NeverOverwritten(steps, more[..n]);
      assert (steps + more)[..|steps + more| - 1] == steps + more[..n];
      TimelineMatchesApplied(steps + more[..n]);
    }
  }

  /** The row of an attempt that took effect is that attempt's event from then on. */
  lemma RowStays(steps: seq<Step>, i: nat)
    requires i < |steps| && steps[i].Attempt?
    requires CanApply(Run(steps[..i]), steps[i].session, steps[i].number)
    ensures
      var k := (steps[i].session, steps[i].number);
      k in Run(steps).timeline && Run(steps).timeline[k] == steps[i].event
  {
    var done := steps[..i + 1];
    assert done[..i] == steps[..i];
    NeverOverwritten(done, steps[i + 1..]);
    assert done + steps[i + 1..] == steps;
  }

  /** Of all the attempts of one number on one session, one takes effect at most: its event
      is the row ever after, and every later attempt is refused. */
  lemma ExactlyOnce(steps: seq<Step>, i: nat, j: nat)
    requires i < j < |steps| && steps[i].Attempt? && steps[j].Attempt?
    requires steps[i].session == steps[j].session && steps[i].number == steps[j].number
    requires CanApply(Run(steps[..i]), steps[i].session, steps[i].number)
    ensures !CanApply(Run(steps[..j]), steps[j].session, steps[j].number)
    ensures
      var k := (steps[i].session, steps[i].number);
      k in Run(steps).timeline && Run(steps).timeline[k] == steps[i].event
  {
    RowStays(steps, i);
    assert steps[..j][..i] == steps[..i];
    RowStays(steps[..j], i);
    TimelineMatchesApplied(steps[..j]);
  }
}
