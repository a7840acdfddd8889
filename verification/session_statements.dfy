/** The session transaction as it is written, and what its text does.

The statement is built for a sequence number: the first number has no predecessor, so its
text has one read, one projected column and one guard fewer, and three values fewer.
 */
module SessionStatements {
  import opened Accord
  import opened Options
  import S = Sessions

  // ----- the tables

  function UserText(s: S.Session): Value { Text(s.user) }

  function SessionText(s: S.Session): Value { Text(s.id) }

  function OpenKey(s: S.Session): Key { Two(UserText(s), SessionText(s)) }

  function NumberKey(s: S.Session, n: nat): Key { Three(UserText(s), SessionText(s), Number(n)) }

  function OpenRow(s: S.Session): Row {
    map[UserId := UserText(s), SessionId := SessionText(s)]
  }

  function AppliedRow(s: S.Session, n: nat): Row {
    map[UserId := UserText(s), SessionId := SessionText(s), Seq := Number(n)]
  }

  function TimelineRow(s: S.Session, n: nat, e: S.Event): Row {
    map[UserId := UserText(s), SessionId := SessionText(s), Seq := Number(n), EventId := Text(e.id),
        EventTime := Moment(e.at), EventType := Text(e.kind), Payload := Text(e.payload)]
  }

  function OpenRead(st: S.State, s: S.Session): Option<Row> {
    if s in st.open then Some(OpenRow(s)) else None
  }

  function AppliedRead(st: S.State, s: S.Session, n: nat): Option<Row> {
    if (s, n) in st.applied then Some(AppliedRow(s, n)) else None
  }

  function TimelineRead(st: S.State, s: S.Session, n: nat): Option<Row> {
    if (s, n) in st.timeline then Some(TimelineRow(s, n, st.timeline[(s, n)])) else None
  }

  ghost predicate OpenStored(store: Store, st: S.State) {
    forall s :: Fetch(store, SessionsOpen, OpenKey(s)) == OpenRead(st, s)
  }

  ghost predicate AppliedStored(store: Store, st: S.State) {
    forall s, n: nat :: Fetch(store, SessionSeqApplied, NumberKey(s, n)) == AppliedRead(st, s, n)
  }

  ghost predicate TimelineStored(store: Store, st: S.State) {
    forall s, n: nat :: Fetch(store, SessionTimeline, NumberKey(s, n)) == TimelineRead(st, s, n)
  }

  /** The store holds the three session tables, row for row. */
  ghost predicate Stores(store: Store, st: S.State) {
    OpenStored(store, st) && AppliedStored(store, st) && TimelineStored(store, st)
  }

  // ----- the statement

  const LET_SESSION_OK := Let(SessionOk, SessionsOpen, [UserId, SessionId])
  const LET_ALREADY := Let(Already, SessionSeqApplied, [UserId, SessionId, Seq])
  const LET_PREV_OK := Let(PrevOk, SessionSeqApplied, [UserId, SessionId, Seq])

  const SESSION_IS_OPEN := IsNotNull(WholeRow(SessionOk))
  const NOT_APPLIED := IsNull(WholeRow(Already))
  const PREVIOUS_APPLIED := IsNotNull(WholeRow(PrevOk))

  const APPEND_ROW := Insert(SessionTimeline, [UserId, SessionId, Seq, EventId, EventTime, EventType, Payload])
  const MARK_APPLIED := Insert(SessionSeqApplied, [UserId, SessionId, Seq])

  function ApplyText(n: nat): Transaction {
    Transaction(
      [LET_SESSION_OK, LET_ALREADY] + (if n > 0 then [LET_PREV_OK] else []),
      [Field(SessionOk, SessionId), Field(Already, Seq)] + (if n > 0 then [Field(PrevOk, Seq)] else []),
      [SESSION_IS_OPEN, NOT_APPLIED] + (if n > 0 then [PREVIOUS_APPLIED] else []),
      [APPEND_ROW, MARK_APPLIED])
  }

  function OpenValues(s: S.Session): seq<Value> { [UserText(s), SessionText(s)] }

  function NumberValues(s: S.Session, n: nat): seq<Value> { [UserText(s), SessionText(s), Number(n)] }

  function RowValues(s: S.Session, n: nat, e: S.Event): seq<Value> {
    [UserText(s), SessionText(s), Number(n), Text(e.id), Moment(e.at), Text(e.kind), Text(e.payload)]
  }

  /** The fifteen or eighteen values, in the order the text names them. */
  function ApplyParams(s: S.Session, n: nat, e: S.Event): seq<Value> {
    [UserText(s), SessionText(s), UserText(s), SessionText(s), Number(n)]
    + (if n > 0 then [UserText(s), SessionText(s), Number(n - 1)] else [])
    + [UserText(s), SessionText(s), Number(n), Text(e.id), Moment(e.at), Text(e.kind), Text(e.payload)]
    + [UserText(s), SessionText(s), Number(n)]
  }

  // ----- what the client makes of the projection

  datatype Reason = Fired | NothingProjected | NotOpen | AlreadyApplied | WouldLeaveGap

  function ReasonOf(n: nat, p: Projection): (reason: Reason)
    ensures reason == NothingProjected <==> p == map[]
  {
    if p == map[] then NothingProjected
    else if Projected(p, SessionOk, SessionId).None? then NotOpen
    else if Projected(p, Already, Seq).Some? then AlreadyApplied
    else if n > 0 && Projected(p, PrevOk, Seq).None? then WouldLeaveGap
    else Fired
  }

  // ----- the reads

  /** What the LETs bind. */
  function ApplyEnv(st: S.State, s: S.Session, n: nat): Env {
    if n == 0 then map[SessionOk := OpenRead(st, s), Already := AppliedRead(st, s, n)]
    else map[SessionOk := OpenRead(st, s), Already := AppliedRead(st, s, n), PrevOk := AppliedRead(st, s, n - 1)]
  }

  function ReadValues(s: S.Session, n: nat): seq<Value> {
    OpenValues(s) + (NumberValues(s, n) + if n > 0 then NumberValues(s, n - 1) else [])
  }

  lemma PrevReads(store: Store, st: S.State, s: S.Session, n: nat)
    requires AppliedStored(store, st)
    ensures ReadHoles([LET_PREV_OK]) == 3
    ensures Reads([LET_PREV_OK], NumberValues(s, n), store) == map[PrevOk := AppliedRead(st, s, n)]
  {
    ReadsCons(LET_PREV_OK, [], NumberValues(s, n), [], store);
    assert [LET_PREV_OK] + [] == [LET_PREV_OK] && NumberValues(s, n) + [] == NumberValues(s, n);
    assert ToKey(NumberValues(s, n)) == NumberKey(s, n);
  }

  lemma ApplyReads(store: Store, st: S.State, s: S.Session, n: nat)
    requires OpenStored(store, st) && AppliedStored(store, st)
    ensures ReadHoles(ApplyText(n).lets) == if n > 0 then 8 else 5
    ensures |ReadValues(s, n)| == ReadHoles(ApplyText(n).lets)
    ensures Reads(ApplyText(n).lets, ReadValues(s, n), store) == ApplyEnv(st, s, n)
  {
    ApplyLets(n);
    if n > 0 {
      LaterReads(store, st, s, n);
    } else {
      TwoReads(store, st, s, n, [], []);
    }
  }

  lemma LaterReads(store: Store, st: S.State, s: S.Session, n: nat)
    requires OpenStored(store, st) && AppliedStored(store, st) && n > 0
    ensures
      var lets := [LET_SESSION_OK] + ([LET_ALREADY] + [LET_PREV_OK]);
      && ReadHoles(lets) == |ReadValues(s, n)| == 8
      && Reads(lets, ReadValues(s, n), store) == ApplyEnv(st, s, n)
  {
    PrevReads(store, st, s, n - 1);
    TwoReads(store, st, s, n, [LET_PREV_OK], NumberValues(s, n - 1));
    LaterEnv(st, s, n);
  }

  lemma LaterEnv(st: S.State, s: S.Session, n: nat)
    requires n > 0
    ensures ApplyEnv(st, s, n) ==
            map[PrevOk := AppliedRead(st, s, n - 1)][Already := AppliedRead(st, s, n)][SessionOk := OpenRead(st, s)]
    ensures |ReadValues(s, n)| == 8
  {
  }

  lemma ApplyLets(n: nat)
    ensures ApplyText(n).lets == [LET_SESSION_OK] + ([LET_ALREADY] + if n > 0 then [LET_PREV_OK] else [])
  {
  }

  lemma TwoReads(store: Store, st: S.State, s: S.Session, n: nat, lets: seq<Read>, values: seq<Value>)
    requires OpenStored(store, st) && AppliedStored(store, st) && |values| == ReadHoles(lets)
    ensures
      var all, bound := [LET_SESSION_OK] + ([LET_ALREADY] + lets), OpenValues(s) + (NumberValues(s, n) + values);
      && ReadHoles(all) == |bound|
      && Reads(all, bound, store) ==
         Reads(lets, values, store)[Already := AppliedRead(st, s, n)][SessionOk := OpenRead(st, s)]
  {
    ReadsCons(LET_ALREADY, lets, NumberValues(s, n), values, store);
    ReadsCons(LET_SESSION_OK, [LET_ALREADY] + lets, OpenValues(s), NumberValues(s, n) + values, store);
    assert ToKey(NumberValues(s, n)) == NumberKey(s, n) && ToKey(OpenValues(s)) == OpenKey(s);
  }

  // ----- the condition

  lemma ApplyCondition(st: S.State, s: S.Session, n: nat)
    ensures GuardHoles(ApplyText(n).condition) == 0
    ensures AllHold(ApplyText(n).condition, [], ApplyEnv(st, s, n)) <==> S.CanApply(st, s, n)
  {
    var env := ApplyEnv(st, s, n);
    var rest := if n > 0 then [PREVIOUS_APPLIED] else [];
    var none: seq<Value> := [];
    assert none + none == none;
    if n > 0 {
      AllHoldCons(PREVIOUS_APPLIED, [], none, none, env);
      assert [PREVIOUS_APPLIED] + [] == rest;
    }
    AllHoldCons(NOT_APPLIED, rest, none, none, env);
    AllHoldCons(SESSION_IS_OPEN, [NOT_APPLIED] + rest, none, none, env);
    assert [SESSION_IS_OPEN] + ([NOT_APPLIED] + rest) == ApplyText(n).condition;
  }

  // ----- the writes

  lemma BoundFive(n: Value, v: seq<Value>)
    requires |v| == 4
    ensures Bound([Seq, EventId, EventTime, EventType, Payload], [n] + v)
         == map[Seq := n, EventId := v[0], EventTime := v[1], EventType := v[2], Payload := v[3]]
  {
    BoundThree(EventTime, EventType, Payload, v[1], v[2], v[3]);
    BoundCons(EventId, [EventTime, EventType, Payload], v[0], [v[1], v[2], v[3]]);
    assert [EventId] + [EventTime, EventType, Payload] == [EventId, EventTime, EventType, Payload];
    assert [v[0]] + [v[1], v[2], v[3]] == v;
    BoundCons(Seq, [EventId, EventTime, EventType, Payload], n, v);
    assert [Seq] + [EventId, EventTime, EventType, Payload] == [Seq, EventId, EventTime, EventType, Payload];
  }

  lemma BoundRow(s: S.Session, n: nat, e: S.Event)
    ensures Bound(APPEND_ROW.columns, RowValues(s, n, e)) == TimelineRow(s, n, e)
  {
    var v4 := [Text(e.id), Moment(e.at), Text(e.kind), Text(e.payload)];
    BoundFive(Number(n), v4);
    BoundSeven(UserText(s), SessionText(s), [Number(n)] + v4);
    assert [UserText(s)] + ([SessionText(s)] + ([Number(n)] + v4)) == RowValues(s, n, e);
  }

  lemma BoundSeven(x: Value, y: Value, v: seq<Value>)
    requires |v| == 5
    ensures Bound(APPEND_ROW.columns, [x] + ([y] + v)) ==
            Bound([Seq, EventId, EventTime, EventType, Payload], v)[SessionId := y][UserId := x]
  {
    var c5 := [Seq, EventId, EventTime, EventType, Payload];
    BoundCons(SessionId, c5, y, v);
    BoundCons(UserId, [SessionId] + c5, x, [y] + v);
    assert [UserId] + ([SessionId] + c5) == APPEND_ROW.columns;
  }

  lemma AppendWrite(store: Store, st: S.State, s: S.Session, n: nat, e: S.Event)
    requires TimelineStored(store, st)
    ensures
      var rows := RowsOf(store, SessionTimeline);
      WriteRow(APPEND_ROW, RowValues(s, n, e), rows) == rows[NumberKey(s, n) := TimelineRow(s, n, e)]
  {
    BoundRow(s, n, e);
    KeyThree(TimelineRow(s, n, e), UserId, SessionId, Seq);
    assert Fetch(store, SessionTimeline, NumberKey(s, n)) == TimelineRead(st, s, n);
    UpsertRow(APPEND_ROW, RowValues(s, n, e), RowsOf(store, SessionTimeline), NumberKey(s, n), TimelineRow(s, n, e));
  }

  lemma MarkWrite(store: Store, st: S.State, s: S.Session, n: nat)
    requires AppliedStored(store, st)
    ensures
      var rows := RowsOf(store, SessionSeqApplied);
      WriteRow(MARK_APPLIED, NumberValues(s, n), rows) == rows[NumberKey(s, n) := AppliedRow(s, n)]
  {
    BoundThree(UserId, SessionId, Seq, UserText(s), SessionText(s), Number(n));
    assert Bound(MARK_APPLIED.columns, NumberValues(s, n)) == AppliedRow(s, n);
    KeyThree(AppliedRow(s, n), UserId, SessionId, Seq);
    assert Fetch(store, SessionSeqApplied, NumberKey(s, n)) == AppliedRead(st, s, n);
    UpsertRow(MARK_APPLIED, NumberValues(s, n), RowsOf(store, SessionSeqApplied), NumberKey(s, n), AppliedRow(s, n));
  }

  /** The store with one number's row and mark added. */
  function Appended(store: Store, s: S.Session, n: nat, e: S.Event): Store {
    store[SessionTimeline := RowsOf(store, SessionTimeline)[NumberKey(s, n) := TimelineRow(s, n, e)]]
         [SessionSeqApplied := RowsOf(store, SessionSeqApplied)[NumberKey(s, n) := AppliedRow(s, n)]]
  }

  /** The two writes land in two tables; the third is left alone. */
  lemma ApplyWrites(store: Store, st: S.State, s: S.Session, n: nat, e: S.Event)
    requires Stores(store, st)
    ensures WriteHoles([APPEND_ROW, MARK_APPLIED]) == 10
    ensures Writes([APPEND_ROW, MARK_APPLIED], RowValues(s, n, e) + NumberValues(s, n), store)
         == Appended(store, s, n, e)
  {
    AppendWrite(store, st, s, n, e);
    MarkWrite(store, st, s, n);
    var s1 := store[SessionTimeline := RowsOf(store, SessionTimeline)[NumberKey(s, n) := TimelineRow(s, n, e)]];
    WritesCons(MARK_APPLIED, [], NumberValues(s, n), [], s1);
    assert [MARK_APPLIED] + [] == [MARK_APPLIED] && NumberValues(s, n) + [] == NumberValues(s, n);
    WritesCons(APPEND_ROW, [MARK_APPLIED], RowValues(s, n, e), NumberValues(s, n), store);
    assert [APPEND_ROW] + [MARK_APPLIED] == [APPEND_ROW, MARK_APPLIED];
  }

  lemma AppliedStores(store: Store, st: S.State, s: S.Session, n: nat, e: S.Event)
    requires Stores(store, st) && S.CanApply(st, s, n)
    ensures Stores(Appended(store, s, n, e), S.Apply(st, s, n, e))
  {
    var after := Appended(store, s, n, e);
    var next := S.Apply(st, s, n, e);
    forall r ensures Fetch(after, SessionsOpen, OpenKey(r)) == OpenRead(next, r) {
      assert Fetch(store, SessionsOpen, OpenKey(r)) == OpenRead(st, r);
    }
    forall r, m: nat
      ensures Fetch(after, SessionSeqApplied, NumberKey(r, m)) == AppliedRead(next, r, m)
      ensures Fetch(after, SessionTimeline, NumberKey(r, m)) == TimelineRead(next, r, m)
    {
      assert Fetch(store, SessionSeqApplied, NumberKey(r, m)) == AppliedRead(st, r, m);
      assert Fetch(store, SessionTimeline, NumberKey(r, m)) == TimelineRead(st, r, m);
    }
  }

  // ----- the statement as a whole

  /** Fifteen values for the first number, eighteen for any other, in three stretches. */
  lemma ParamsSplit(s: S.Session, n: nat, e: S.Event)
    ensures |ApplyParams(s, n, e)| == if n > 0 then 18 else 15
    ensures ApplyParams(s, n, e) == ReadValues(s, n) + (RowValues(s, n, e) + NumberValues(s, n))
  {
  }

  /** What keeps a number from being applied, as the session has it: a replay is named as one
      even where it would also leave a gap. */
  function WhyNot(st: S.State, s: S.Session, n: nat): Reason {
    if s !in st.open then NotOpen
    else if (s, n) in st.applied then AlreadyApplied
    else if n > 0 && (s, n - 1) !in st.applied then WouldLeaveGap
    else Fired
  }

  lemma ReasonReads(st: S.State, s: S.Session, n: nat)
    ensures ReasonOf(n, Project(ApplyText(n).projection, ApplyEnv(st, s, n))) == WhyNot(st, s, n)
    ensures WhyNot(st, s, n) == Fired <==> S.CanApply(st, s, n)
  {
    var projection, env := ApplyText(n).projection, ApplyEnv(st, s, n);
    assert projection[0] == Field(SessionOk, SessionId) && projection[1] == Field(Already, Seq);
    ProjectedIs(projection, env, SessionOk, SessionId);
    ProjectedIs(projection, env, Already, Seq);
    if n > 0 {
      assert projection[2] == Field(PrevOk, Seq);
      ProjectedIs(projection, env, PrevOk, Seq);
    }
  }

  lemma ProjectedIs(projection: seq<Reference>, env: Env, name: Name, column: Column)
    requires Field(name, column) in projection
    ensures Project(projection, env) != map[]
    ensures Projected(Project(projection, env), name, column) == Lookup(env, Field(name, column))
  {
    assert Field(name, column) in Project(projection, env);
  }

  lemma ApplyIsWellFormed(n: nat)
    ensures WellFormed(ApplyText(n))
  {
    var t := ApplyText(n);
    assert LET_SESSION_OK == t.lets[0] && LET_ALREADY == t.lets[1];
    if n > 0 {
      assert LET_PREV_OK == t.lets[2];
    }
  }

  /** A condition without values of its own. */
  lemma ExecuteUnbound(t: Transaction, r: seq<Value>, w: seq<Value>, store: Store)
    requires WellFormed(t)
    requires |r| == ReadHoles(t.lets) && GuardHoles(t.condition) == 0 && |w| == WriteHoles(t.writes)
    ensures
      var env := Reads(t.lets, r, store);
      var fired := AllHold(t.condition, [], env);
      Execute(t, r + w, store)
      == Ran(if fired then Writes(t.writes, w, store) else store, Project(t.projection, env), fired)
  {
    ExecuteParts(t, r, [], w, store);
    assert r + [] + w == r + w;
  }

  lemma ApplyExecutes(store: Store, st: S.State, s: S.Session, n: nat, e: S.Event)
    requires Stores(store, st)
    ensures Execute(ApplyText(n), ApplyParams(s, n, e), store)
         == Ran(if S.CanApply(st, s, n) then Appended(store, s, n, e) else store,
                Project(ApplyText(n).projection, ApplyEnv(st, s, n)),
                S.CanApply(st, s, n))
  {
    var r, w := ReadValues(s, n), RowValues(s, n, e) + NumberValues(s, n);
    ParamsSplit(s, n, e);
    ApplyIsWellFormed(n);
    ApplyReads(store, st, s, n);
    ApplyCondition(st, s, n);
    ApplyWrites(store, st, s, n, e);
    ExecuteUnbound(ApplyText(n), r, w, store);
  }

  /** For every number the text with its values does exactly the guarded append, and the
      reason the client reads is empty exactly when it fired. */
  lemma ApplyTextApplies(store: Store, st: S.State, s: S.Session, n: nat, e: S.Event)
    requires Stores(store, st)
    ensures
      var outcome := Execute(ApplyText(n), ApplyParams(s, n, e), store);
      && outcome.Ran?
      && Stores(outcome.store, S.Apply(st, s, n, e))
      && (outcome.fired <==> S.CanApply(st, s, n))
      && (ReasonOf(n, outcome.projection) == Fired <==> S.CanApply(st, s, n))
      && ReasonOf(n, outcome.projection) == WhyNot(st, s, n)
  {
    ApplyExecutes(store, st, s, n, e);
    if S.CanApply(st, s, n) {
      AppliedStores(store, st, s, n, e);
    }
    ReasonReads(st, s, n);
  }

  // ----- whole runs

  const OPEN_SESSION := Insert(SessionsOpen, [UserId, SessionId])

  /** The store after a session's row is inserted. */
  function Opening(store: Store, s: S.Session): Store {
    store[SessionsOpen := WriteRow(OPEN_SESSION, OpenValues(s), RowsOf(store, SessionsOpen))]
  }

  lemma OpenInsert(store: Store, st: S.State, s: S.Session)
    requires Stores(store, st)
    ensures Stores(Opening(store, s), S.OpenSession(st, s))
  {
    var after, next := Opening(store, s), S.OpenSession(st, s);
    BoundCons(SessionId, [], SessionText(s), []);
    BoundCons(UserId, [SessionId], UserText(s), [SessionText(s)]);
    assert [SessionId] == [SessionId] + [] && [SessionText(s)] == [SessionText(s)] + [];
    assert OPEN_SESSION.columns == [UserId] + [SessionId] && OpenValues(s) == [UserText(s)] + [SessionText(s)];
    assert Bound(OPEN_SESSION.columns, OpenValues(s)) == OpenRow(s);
    KeyTwo(OpenRow(s), UserId, SessionId);
    assert Fetch(store, SessionsOpen, OpenKey(s)) == OpenRead(st, s);
    UpsertRow(OPEN_SESSION, OpenValues(s), RowsOf(store, SessionsOpen), OpenKey(s), OpenRow(s));
    forall t ensures Fetch(after, SessionsOpen, OpenKey(t)) == OpenRead(next, t) {
      assert Fetch(store, SessionsOpen, OpenKey(t)) == OpenRead(st, t);
    }
    OpenLeavesOthers(store, st, s);
  }

  lemma OpenLeavesOthers(store: Store, st: S.State, s: S.Session)
    requires Stores(store, st)
    ensures AppliedStored(Opening(store, s), S.OpenSession(st, s))
    ensures TimelineStored(Opening(store, s), S.OpenSession(st, s))
  {
    var after := Opening(store, s);
    assert forall t, k :: t != SessionsOpen ==> Fetch(after, t, k) == Fetch(store, t, k);
  }

  /** One step as its statement does it. */
  function Perform(store: Store, step: S.Step): Store {
    match step
    case Open(s) => Opening(store, s)
    case Attempt(s, n, e) =>
      var outcome := Execute(ApplyText(n), ApplyParams(s, n, e), store);
      if outcome.Ran? then outcome.store else store
  }

  function PerformAll(steps: seq<S.Step>): Store {
    if steps == [] then map[] else Perform(PerformAll(steps[..|steps| - 1]), steps[|steps| - 1])
  }

  /** Any run of openings and apply texts, from empty tables, keeps the stored rows in step with
      the sessions. */
  lemma {:induction false} TextsRefineSessions(steps: seq<S.Step>)
    ensures Stores(PerformAll(steps), S.Run(steps))
  {
    if steps != [] {
      var init := steps[..|steps| - 1];
      TextsRefineSessions(init);
      match steps[|steps| - 1]
      case Open(s) => OpenInsert(PerformAll(init), S.Run(init), s);
      case Attempt(s, n, e) => ApplyTextApplies(PerformAll(init), S.Run(init), s, n, e);
    }
  }

  /** So the timeline rows of a session that the texts leave behind are exactly the first k, with
      k the greedy count of its attempts. */
  lemma TimelineRowsAreGreedy(steps: seq<S.Step>, s: S.Session, n: nat)
    ensures Fetch(PerformAll(steps), SessionTimeline, NumberKey(s, n)).Some? <==>
            n < S.Greedy(S.Attempts(steps, s))
  {
    TextsRefineSessions(steps);
    S.AppliedIsPrefix(steps, s);
    assert Fetch(PerformAll(steps), SessionTimeline, NumberKey(s, n)) == TimelineRead(S.Run(steps), s, n);
  }
}
