/** The engine comparison: which engines, one run at a time, and how a cancel reaches it.

Starting a run is three steps (take the lock, clear the flag, publish), ending one is three in
the other order, and a cancel is two: read what is in flight, then set the flag.  Any of them
can fall between any others.
 */
module Comparison {

  // ----- which engines

  /** The engines in the dashboard's order. */
  const ENGINES: seq<string> := ["cassandra", "presto", "spark", "spark_bulk", "cqlite"]

  datatype Request = AllOfThem | Named(names: seq<string>)

  datatype Chosen = These(engines: seq<string>) | UnknownEngines(names: seq<string>) | NoEngines

  ghost predicate Distinct(s: seq<string>) { forall i, j :: 0 <= i < j < |s| ==> s[i] != s[j] }

  /** Where a name first stands. */
  function First(s: seq<string>, x: string): (i: nat)
    ensures i <= |s| && (i < |s| ==> s[i] == x)
    ensures forall j :: 0 <= j < i ==> s[j] != x
    ensures x in s <==> i < |s|
  {
    if s == [] then 0 else if s[0] == x then 0 else 1 + First(s[1..], x)
  }

  /** Each in the order it first stands in another sequence; so each once. */
  ghost predicate OrderedBy(s: seq<string>, order: seq<string>) {
    forall i, j :: 0 <= i < j < |s| ==> First(order, s[i]) < First(order, s[j])
  }

  /** The names with repeats dropped. */
  method DropRepeats(names: seq<string>) returns (seen: seq<string>)
    ensures forall x :: x in seen <==> x in names
    ensures OrderedBy(seen, names)
  {
    seen := [];
    for i := 0 to |names|
      invariant forall x :: x in seen <==> x in names[..i]
      invariant forall k :: 0 <= k < |seen| ==> First(names, seen[k]) < i
      invariant OrderedBy(seen, names)
    {
      if names[i] !in seen {
        assert First(names, names[i]) == i by {
          assert forall k :: 0 <= k < i ==> names[..i][k] == names[k];
        }
        seen := seen + [names[i]];
      }
    }
    assert names[..|names|] == names;
  }

  lemma FirstAt(s: seq<string>, i: nat)
    requires Distinct(s) && i < |s|
    ensures First(s, s[i]) == i
  {
  }

  /** The members of one sequence that are in another. */
  method Keep(order: seq<string>, names: seq<string>) returns (kept: seq<string>)
    requires Distinct(order)
    ensures forall x :: x in kept <==> x in order && x in names
    ensures OrderedBy(kept, order)
  {
    kept := [];
    for i := 0 to |order|
      invariant forall x :: x in kept <==> x in order[..i] && x in names
      invariant forall k :: 0 <= k < |kept| ==> First(order, kept[k]) < i
      invariant OrderedBy(kept, order)
    {
      if order[i] in names {
        FirstAt(order, i);
        kept := kept + [order[i]];
      }
    }
    assert order[..|order|] == order;
  }

  method Unknown(names: seq<string>) returns (unknown: seq<string>)
    ensures forall x :: x in unknown <==> x in names && x !in ENGINES
  {
    unknown := [];
    for i := 0 to |names|
      invariant forall x :: x in unknown <==> x in names[..i] && x !in ENGINES
    {
      if names[i] !in ENGINES {
        unknown := unknown + [names[i]];
      }
    }
    assert names[..|names|] == names;
  }

  lemma EnginesAreDistinct()
    ensures Distinct(ENGINES)
  {
    assert |ENGINES[0]| == 9 && |ENGINES[1]| == 6 && |ENGINES[2]| == 5 && |ENGINES[3]| == 10;
    assert ENGINES[4][0] == 'c' && ENGINES[1][0] == 'p';
  }

  method RequestedEngines(request: Request, keepOrder: bool) returns (chosen: Chosen)
    ensures request.AllOfThem? ==> chosen == These(ENGINES)
    ensures request.Named? ==>
              (chosen.UnknownEngines? <==> exists x :: x in request.names && x !in ENGINES)
    ensures chosen.UnknownEngines? ==>
              request.Named? && forall x :: x in chosen.names <==> x in request.names && x !in ENGINES
    ensures chosen.NoEngines? <==> request == Named([])
    ensures request.Named? && chosen.These? ==>
              && (forall x :: x in chosen.engines <==> x in request.names)
              && OrderedBy(chosen.engines, if keepOrder then request.names else ENGINES)
    ensures chosen.These? ==> Distinct(chosen.engines) && chosen.engines != []
  {
    EnginesAreDistinct();
    match request
    case AllOfThem => return These(ENGINES);
    case Named(names) =>
      var unknown := Unknown(names);
      if unknown != [] {
        assert unknown[0] in unknown;
        return UnknownEngines(unknown);
      }
      var engines;
      if keepOrder {
        engines := DropRepeats(names);
      } else {
        engines := Keep(ENGINES, names);
      }
      assert |names| > 0 ==> names[0] in engines;
      if engines == [] {
        return NoEngines;
      }
      assert engines[0] in engines;
      return These(engines);
  }

  /** One engine at a time, stopping before the next once the flag is seen. */
  method RunSequence(engines: seq<string>, flagged: nat -> bool) returns (answered: seq<string>)
    ensures exists n: nat :: n <= |engines| && answered == engines[..n] &&
                             (forall k: nat :: k < n ==> !flagged(k)) && (n < |engines| ==> flagged(n))
  {
    answered := [];
    for i := 0 to |engines|
      invariant answered == engines[..i]
      invariant forall k: nat :: k < i ==> !flagged(k)
    {
      if flagged(i) {
        return;
      }
      answered := answered + [engines[i]];
    }
  }

  // ----- one at a time

  /** Where a run has got to. */
  datatype Phase =
    | Asked | Refused
    | Locked | Cleared | Running | Asking | Stopping | Reported
    | Withdrawn | Wiped | Over

  /** A run: its engines, those that have answered, and what it reported of a cancel. */
  datatype Comparison = Comparison(engines: seq<string>, phase: Phase, answered: seq<string>, outcome: Outcome)

  datatype Outcome = Unsaid | Cancelled | Finished

  datatype Holder = Nobody | By(id: nat)

  /** `cancels` is what each cancel has read.  `reached` is history: for each setting of the flag
      while a run could still see it, the run the cancel had read and the run it reached. */
  datatype State = State(
    lock: Holder, flag: bool, inFlight: Holder,
    runs: map<nat, Comparison>, cancels: map<nat, Holder>, reached: set<(nat, nat)>)

  datatype Step =
    | Ask(id: nat, engines: seq<string>)
    | Acquire(id: nat)
    | Clear(id: nat)
    | Publish(id: nat)
    /** Look at the flag before the next engine. */
    | Advance(id: nat)
    | Answer(id: nat)
    | Report(id: nat)
    /** The client has gone. */
    | Leave(id: nat)
    | Withdraw(id: nat)
    | Wipe(id: nat)
    | Release(id: nat)
    | Look(cancel: nat)
    | Set(cancel: nat)

  /** A run that can still see the flag. */
  predicate Watching(phase: Phase) {
    phase == Cleared || phase == Running || phase == Asking || phase == Stopping
  }

  /** The phase a run's own step leaves. */
  predicate Ready(r: Comparison, step: Step) {
    match step
    case Acquire(_) => r.phase == Asked
    case Clear(_) => r.phase == Locked
    case Publish(_) => r.phase == Cleared
    case Advance(_) => r.phase == Running
    case Answer(_) => r.phase == Asking && |r.answered| < |r.engines|
    case Report(_) => r.phase == Stopping
    case Leave(_) => r.phase == Running
    case Withdraw(_) => r.phase == Reported
    case Wipe(_) => r.phase == Withdrawn
    case Release(_) => r.phase == Wiped
    case _ => false
  }

  /** A run after its own step, given the flag and whether the lock is free. */
  function Own(r: Comparison, step: Step, flag: bool, free: bool): Comparison
    requires Ready(r, step)
  {
    match step
    case Acquire(_) => r.(phase := if free then Locked else Refused)
    case Clear(_) => r.(phase := Cleared)
    case Publish(_) => r.(phase := Running)
    case Advance(_) => r.(phase := if flag || |r.answered| >= |r.engines| then Stopping else Asking)
    case Answer(_) => r.(phase := Running, answered := r.answered + [r.engines[|r.answered|]])
    case Report(_) => r.(phase := Reported, outcome := if flag then Cancelled else Finished)
    case Leave(_) => r.(phase := Reported)
    case Withdraw(_) => r.(phase := Withdrawn)
    case Wipe(_) => r.(phase := Wiped)
    case Release(_) => r.(phase := Over)
  }

  predicate OwnStep(step: Step) { !step.Ask? && !step.Look? && !step.Set? }

  predicate Allowed(s: State, step: Step) {
    match step
    case Ask(id, _) => id !in s.runs
    case Look(c) => c !in s.cancels
    case Set(c) => c in s.cancels && s.cancels[c].By?
    case _ => step.id in s.runs && Ready(s.runs[step.id], step)
  }

  /** The lock, the flag and what is in flight after a run's own step. */
  function Lock(s: State, step: Step): Holder {
    match step
    case Acquire(id) => if s.lock.Nobody? then By(id) else s.lock
    case Release(_) => Nobody
    case _ => s.lock
  }

  function Flag(s: State, step: Step): bool { if step.Clear? || step.Wipe? then false else s.flag }

  function InFlight(s: State, step: Step): Holder {
    match step
    case Publish(id) => By(id)
    case Withdraw(_) => Nobody
    case _ => s.inFlight
  }

  /** What a cancel's set reaches: the run that holds the lock, if it can see the flag. */
  function Reach(s: State, cancel: nat): set<(nat, nat)>
    requires cancel in s.cancels && s.cancels[cancel].By?
  {
    if s.lock.By? && s.lock.id in s.runs && Watching(s.runs[s.lock.id].phase)
    then {(s.cancels[cancel].id, s.lock.id)} else {}
  }

  function Next(s: State, step: Step): State
    requires Allowed(s, step)
  {
    match step
    case Ask(id, engines) => s.(runs := s.runs[id := Comparison(engines, Asked, [], Unsaid)])
    case Look(c) => s.(cancels := s.cancels[c := s.inFlight])
    case Set(c) => s.(flag := true, reached := s.reached + Reach(s, c))
    case _ =>
      var own := Own(s.runs[step.id], step, s.flag, s.lock.Nobody?);
      State(Lock(s, step), Flag(s, step), InFlight(s, step), s.runs[step.id := own], s.cancels, s.reached)
  }

  const IDLE: State := State(Nobody, false, Nobody, map[], map[], {})

  /** A step that is not allowed where it stands does nothing. */
  function Run(steps: seq<Step>): State {
    if steps == [] then IDLE
    else
      var s, step := Run(steps[..|steps| - 1]), steps[|steps| - 1];
      if Allowed(s, step) then Next(s, step) else s
  }

  // ----- what every run keeps

  predicate Active(phase: Phase) {
    Watching(phase) || phase == Locked || phase == Reported || phase == Withdrawn || phase == Wiped
  }

  predicate Published(phase: Phase) {
    phase == Running || phase == Asking || phase == Stopping || phase == Reported
  }

  predicate Waiting(phase: Phase) { phase == Asked || phase == Refused || phase == Locked }

  /** One run, given whether it holds the lock, whether it is in flight, the flag, and whether
      some cancel has reached it. */
  ghost predicate Good(r: Comparison, mine: bool, shown: bool, flag: bool, hit: bool) {
    && (Active(r.phase) <==> mine)
    && (Published(r.phase) <==> shown)
    && r.answered <= r.engines
    && (Watching(r.phase) ==> (flag <==> hit))
    && (r.phase == Stopping && r.answered != r.engines ==> flag)
    && (Waiting(r.phase) ==> !hit)
    && (Waiting(r.phase) || Watching(r.phase) ==> r.outcome == Unsaid)
    && (r.outcome == Finished ==> r.answered == r.engines)
    && (r.outcome != Unsaid ==> (r.outcome == Cancelled <==> hit))
  }

  /** Some cancel set the flag while this run could see it. */
  ghost predicate Hit(s: State, id: nat) { exists read :: (read, id) in s.reached }

  ghost predicate RunGood(s: State, id: nat)
    requires id in s.runs
  {
    Good(s.runs[id], s.lock == By(id), s.inFlight == By(id), s.flag, Hit(s, id))
  }

  ghost predicate Ok(s: State) {
    && (s.lock.By? ==> s.lock.id in s.runs)
    && (s.inFlight.By? ==> s.inFlight.id in s.runs)
    && (forall p :: p in s.reached ==> p.1 in s.runs)
    && (forall id :: id in s.runs ==> RunGood(s, id))
  }

  /** A run's own step keeps it good. */
  lemma OwnGood(r: Comparison, step: Step, free: bool, mine: bool, shown: bool, flag: bool, hit: bool)
    requires Ready(r, step) && Good(r, mine, shown, flag, hit) && (mine ==> !free)
    ensures
      var mine' := if step.Acquire? then free else mine && !step.Release?;
      var shown' := step.Publish? || (shown && !step.Withdraw?);
      var flag' := flag && !step.Clear? && !step.Wipe?;
      Good(Own(r, step, flag, free), mine', shown', flag', hit)
  {
  }

  lemma OwnKeeps(s: State, step: Step)
    requires Ok(s) && Allowed(s, step) && OwnStep(step)
    ensures Ok(Next(s, step))
  {
    var t := Next(s, step);
    assert RunGood(s, step.id);
    OwnGood(s.runs[step.id], step, s.lock.Nobody?, s.lock == By(step.id), s.inFlight == By(step.id),
            s.flag, Hit(s, step.id));
    forall id | id in t.runs ensures RunGood(t, id) {
      assert Hit(t, id) <==> Hit(s, id);
      if id != step.id {
        OthersStay(s, step, id);
      }
    }
  }

  /** A run's own step leaves every other run good. */
  lemma OthersStay(s: State, step: Step, id: nat)
    requires Ok(s) && Allowed(s, step) && OwnStep(step) && id in s.runs && id != step.id
    ensures RunGood(Next(s, step), id)
  {
    assert RunGood(s, id) && RunGood(s, step.id);
    assert Hit(Next(s, step), id) <==> Hit(s, id);
  }

  lemma SetKeeps(s: State, step: Step)
    requires Ok(s) && Allowed(s, step) && step.Set?
    ensures Ok(Next(s, step))
  {
    var t := Next(s, step);
    forall id | id in t.runs ensures RunGood(t, id) {
      assert RunGood(s, id);
      if s.lock == By(id) && Watching(s.runs[id].phase) {
        assert (s.cancels[step.cancel].id, id) in t.reached;
      } else {
        assert Hit(t, id) <==> Hit(s, id);
      }
    }
  }

  lemma AskKeeps(s: State, step: Step)
    requires Ok(s) && Allowed(s, step) && (step.Ask? || step.Look?)
    ensures Ok(Next(s, step))
  {
    var t := Next(s, step);
    forall id | id in t.runs ensures RunGood(t, id) {
      if id in s.runs {
        assert RunGood(s, id);
      }
      assert Hit(t, id) <==> Hit(s, id);
    }
  }

  lemma {:induction false} RunsAreOk(steps: seq<Step>)
    ensures Ok(Run(steps))
  {
    if steps != [] {
      var s, step := Run(steps[..|steps| - 1]), steps[|steps| - 1];
      RunsAreOk(steps[..|steps| - 1]);
      if Allowed(s, step) {
        match step
        case Ask(_, _) => AskKeeps(s, step);
        case Look(_) => AskKeeps(s, step);
        case Set(_) => SetKeeps(s, step);
        case _ => OwnKeeps(s, step);
      }
    }
  }

  /** Whatever the interleaving, no two runs are under way at once. */
  lemma OneAtATime(steps: seq<Step>, a: nat, b: nat)
    requires
      var s := Run(steps);
      a in s.runs && b in s.runs && Active(s.runs[a].phase) && Active(s.runs[b].phase)
    ensures a == b
  {
    RunsAreOk(steps);
    var s := Run(steps);
    assert RunGood(s, a) && RunGood(s, b);
  }

  /** The answers are a prefix of the engines asked for; a run that says it finished has them
      all, so one that stopped short and reported says it was cancelled; and it says so exactly
      when a cancel set the flag while it could see it. */
  lemma StoppedShortSaysSo(steps: seq<Step>, id: nat)
    requires id in Run(steps).runs
    ensures
      var s := Run(steps);
      var r := s.runs[id];
      && r.answered <= r.engines
      && (r.outcome != Unsaid && r.answered != r.engines ==> r.outcome == Cancelled)
      && (r.outcome != Unsaid ==> (r.outcome == Cancelled <==> Hit(s, id)))
  {
    RunsAreOk(steps);
    assert RunGood(Run(steps), id);
  }

  // ----- whose cancel it was

  /** Step `i` of the run is this one, and was allowed there. */
  ghost predicate Taken(steps: seq<Step>, i: nat, step: Step) {
    i < |steps| && steps[i] == step && Allowed(Run(steps[..i]), step)
  }

  lemma TakenPrefix(steps: seq<Step>, n: nat)
    requires n <= |steps|
    ensures forall i: nat, step :: Taken(steps[..n], i, step) <==> i < n && Taken(steps, i, step)
  {
    assert forall i: nat :: i <= n ==> steps[..n][..i] == steps[..i];
  }

  /** The run can see the flag. */
  predicate Watch(s: State, id: nat) { id in s.runs && Watching(s.runs[id].phase) }

  /** A run sees the flag from its own clearing of it until it reports or its client leaves. */
  lemma WatchNext(s: State, step: Step, id: nat)
    requires Allowed(s, step)
    ensures Watch(Next(s, step), id) <==>
            step == Clear(id) || (Watch(s, id) && step != Report(id) && step != Leave(id))
  {
  }

  /** The run cleared the flag at step `k` and had neither reported nor been left by step `j`. */
  ghost predicate SeesSince(steps: seq<Step>, id: nat, k: nat, j: nat) {
    && Taken(steps, k, Clear(id))
    && forall m: nat :: k < m < j ==> !Taken(steps, m, Report(id)) && !Taken(steps, m, Leave(id))
  }

  /** The run has cleared the flag and has since neither reported nor been left. */
  ghost predicate Seeing(steps: seq<Step>, id: nat) { exists k: nat :: SeesSince(steps, id, k, |steps|) }

  lemma {:induction false} WatchIff(steps: seq<Step>, id: nat)
    ensures Watch(Run(steps), id) <==> Seeing(steps, id)
  {
    if steps != [] {
      var n := |steps| - 1;
      WatchIff(steps[..n], id);
      if Allowed(Run(steps[..n]), steps[n]) {
        WatchNext(Run(steps[..n]), steps[n], id);
      }
      if Taken(steps, n, Clear(id)) {
        assert SeesSince(steps, id, n, |steps|);
      } else {
        WatchCarries(steps, id);
      }
    }
  }

  /** A last step that is not the clearing leaves the question to what came before it. */
  lemma WatchCarries(steps: seq<Step>, id: nat)
    requires steps != [] && !Taken(steps, |steps| - 1, Clear(id))
    ensures
      var n := |steps| - 1;
      Seeing(steps, id) <==> Seeing(steps[..n], id) && !Taken(steps, n, Report(id)) && !Taken(steps, n, Leave(id))
  {
    var n := |steps| - 1;
    if Seeing(steps, id) {
      var k: nat :| SeesSince(steps, id, k, |steps|);
      SeesCarries(steps, id, k);
    }
    if Seeing(steps[..n], id) && !Taken(steps, n, Report(id)) && !Taken(steps, n, Leave(id)) {
      var k: nat :| SeesSince(steps[..n], id, k, n);
      SeesCarries(steps, id, k);
    }
  }

  lemma SeesCarries(steps: seq<Step>, id: nat, k: nat)
    requires k < |steps| - 1
    ensures
      var n := |steps| - 1;
      SeesSince(steps, id, k, |steps|) <==>
      SeesSince(steps[..n], id, k, n) && !Taken(steps, n, Report(id)) && !Taken(steps, n, Leave(id))
  {
    var n := |steps| - 1;
    forall m: nat, step | m < n ensures Taken(steps[..n], m, step) <==> Taken(steps, m, step) {
      TakenInPrefix(steps, n, m, step);
    }
  }

  lemma TakenInPrefix(steps: seq<Step>, n: nat, i: nat, step: Step)
    requires i < n <= |steps|
    ensures Taken(steps[..n], i, step) <==> Taken(steps, i, step)
  {
    assert steps[..n][..i] == steps[..i];
  }

  /** What a cancel has read is what was in flight at its look. */
  lemma {:induction false} LookedAt(steps: seq<Step>, c: nat)
    ensures c in Run(steps).cancels <==> exists i: nat :: Taken(steps, i, Look(c))
    ensures forall i: nat :: Taken(steps, i, Look(c)) ==>
              c in Run(steps).cancels && Run(steps).cancels[c] == Run(steps[..i]).inFlight
  {
    if steps != [] {
      var n := |steps| - 1;
      LookedAt(steps[..n], c);
      TakenPrefix(steps, n);
      assert forall i: nat :: i <= n ==> steps[..n][..i] == steps[..i];
      if Taken(steps, n, Look(c)) {
        assert c !in Run(steps[..n]).cancels;
      }
      assert forall i: nat :: Taken(steps, i, Look(c)) ==> i == n || Taken(steps[..n], i, Look(c));
      assert forall i: nat :: Taken(steps[..n], i, Look(c)) ==> Taken(steps, i, Look(c));
    }
  }

  /** Only the run that holds the lock can see the flag, so a set reaches whoever sees it. */
  lemma ReachIsWatching(s: State, c: nat, id: nat)
    requires Ok(s) && c in s.cancels && s.cancels[c].By?
    ensures (s.cancels[c].id, id) in Reach(s, c) <==> Watch(s, id)
  {
    if Watch(s, id) {
      assert RunGood(s, id);
    }
  }

  /** While one run is in flight no other sees the flag. */
  lemma InFlightWatches(s: State, r: nat, id: nat)
    requires Ok(s) && s.inFlight == By(r) && Watch(s, id)
    ensures id == r
  {
    assert RunGood(s, id) && RunGood(s, r);
  }

  /** A cancel read a run, another run cleared the flag after that, and the cancel was set while
      that other could still see it. */
  ghost predicate StaleAt(steps: seq<Step>, c: nat, i: nat, k: nat, id: nat, j: nat) {
    && i < k < j
    && Taken(steps, i, Look(c)) && Run(steps[..i]).inFlight != By(id)
    && SeesSince(steps, id, k, j)
    && Taken(steps, j, Set(c))
  }

  ghost predicate Stale(steps: seq<Step>, c: nat, id: nat, j: nat) {
    exists i: nat, k: nat :: StaleAt(steps, c, i, k, id, j)
  }

  /** A set that reaches another run than its cancel read is stale. */
  lemma OtherIsStale(steps: seq<Step>, c: nat, j: nat, id: nat)
    requires Taken(steps, j, Set(c)) && Watch(Run(steps[..j]), id) && Run(steps[..j]).cancels[c].id != id
    ensures Stale(steps, c, id, j)
  {
    WatchIff(steps[..j], id);
    var i := LookOf(steps, c, j);
    var k: nat :| SeesSince(steps[..j], id, k, j);
    LookComesFirst(steps, i, k, j, id, c);
    assert StaleAt(steps, c, i, k, id, j);
  }

  /** The look of a cancel that is set, and what it read. */
  lemma LookOf(steps: seq<Step>, c: nat, j: nat) returns (i: nat)
    requires Taken(steps, j, Set(c))
    ensures i < j && Taken(steps, i, Look(c)) && Run(steps[..i]).inFlight == Run(steps[..j]).cancels[c]
  {
    var before := steps[..j];
    LookedAt(before, c);
    TakenPrefix(steps, j);
    i :| Taken(before, i, Look(c));
    assert before[..i] == steps[..i];
  }

  /** A stale set reaches the other run. */
  lemma StaleIsOther(steps: seq<Step>, c: nat, i: nat, k: nat, id: nat, j: nat)
    requires StaleAt(steps, c, i, k, id, j)
    ensures Watch(Run(steps[..j]), id) && Run(steps[..j]).cancels[c] != By(id)
  {
    var before := steps[..j];
    TakenPrefix(steps, j);
    LookedAt(before, c);
    assert before[..i] == steps[..i] && Taken(before, i, Look(c));
    assert SeesSince(before, id, k, j);
    WatchIff(before, id);
  }

  /** The steps alone tell whom a set reaches: another run than the one it read, exactly when
      that other cleared the flag since the look and has not reported or been left. */
  lemma SetReachesOther(steps: seq<Step>, c: nat, j: nat, id: nat)
    requires Taken(steps, j, Set(c))
    ensures
      var s := Run(steps[..j]);
      (s.cancels[c].id, id) in Reach(s, c) && s.cancels[c].id != id <==> Stale(steps, c, id, j)
  {
    var s := Run(steps[..j]);
    RunsAreOk(steps[..j]);
    ReachIsWatching(s, c, id);
    if Watch(s, id) && s.cancels[c].id != id {
      OtherIsStale(steps, c, j, id);
    }
    if Stale(steps, c, id, j) {
      var i: nat, k: nat :| StaleAt(steps, c, i, k, id, j);
      StaleIsOther(steps, c, i, k, id, j);
    }
  }

  lemma LookComesFirst(steps: seq<Step>, i: nat, k: nat, j: nat, id: nat, c: nat)
    requires i < j <= |steps| && Taken(steps, i, Look(c)) && SeesSince(steps[..j], id, k, j)
    requires Run(steps[..i]).inFlight.By? && Run(steps[..i]).inFlight != By(id)
    ensures i < k && SeesSince(steps, id, k, j)
  {
    TakenPrefix(steps, j);
    assert k != i;
    if k < i {
      TakenPrefix(steps, i);
      assert SeesSince(steps[..i], id, k, i);
      WatchIff(steps[..i], id);
      RunsAreOk(steps[..i]);
      InFlightWatches(Run(steps[..i]), Run(steps[..i]).inFlight.id, id);
    }
  }

  /** What step `j` reaches. */
  function SetReach(steps: seq<Step>, j: nat): set<(nat, nat)>
    requires j < |steps|
  {
    var s := Run(steps[..j]);
    if steps[j].Set? && Allowed(s, steps[j]) then Reach(s, steps[j].cancel) else {}
  }

  lemma LastReach(steps: seq<Step>)
    requires steps != []
    ensures
      var n := |steps| - 1;
      Run(steps).reached == Run(steps[..n]).reached + SetReach(steps, n)
  {
  }

  /** What was reached, set by set. */
  lemma {:induction false} ReachedBySets(steps: seq<Step>, p: (nat, nat))
    ensures p in Run(steps).reached <==> exists j: nat :: j < |steps| && p in SetReach(steps, j)
  {
    if steps != [] {
      var n := |steps| - 1;
      ReachedBySets(steps[..n], p);
      LastReach(steps);
      forall j: nat | j < n ensures SetReach(steps[..n], j) == SetReach(steps, j) {
        assert steps[..n][..j] == steps[..j];
      }
    }
  }

  /** Every cancel that reached a run was meant for it exactly when no other run had cleared the
      flag, and still saw it, between a cancel's look and its set. */
  lemma AimedIff(steps: seq<Step>)
    ensures (forall p :: p in Run(steps).reached ==> p.0 == p.1) <==>
            forall c, id, j: nat :: !Stale(steps, c, id, j)
  {
    forall c, id, j: nat | Stale(steps, c, id, j)
      ensures exists p :: p in Run(steps).reached && p.0 != p.1
    {
      StaleReaches(steps, c, id, j);
    }
    forall p | p in Run(steps).reached && p.0 != p.1
      ensures exists c, id, j: nat :: Stale(steps, c, id, j)
    {
      ReachedBySets(steps, p);
      var j: nat :| j < |steps| && p in SetReach(steps, j);
      SetReachesOther(steps, steps[j].cancel, j, p.1);
      assert Stale(steps, steps[j].cancel, p.1, j);
    }
  }

  lemma StaleReaches(steps: seq<Step>, c: nat, id: nat, j: nat)
    requires Stale(steps, c, id, j)
    ensures exists p :: p in Run(steps).reached && p.0 != p.1
  {
    assert Taken(steps, j, Set(c));
    SetReachesOther(steps, c, j, id);
    var p := (Run(steps[..j]).cancels[c].id, id);
    ReachedBySets(steps, p);
    assert p in SetReach(steps, j);
  }

  function Then(s: State, step: Step): State { if Allowed(s, step) then Next(s, step) else s }

  /** The steps taken from a state. */
  function From(s: State, steps: seq<Step>): State {
    if steps == [] then s else Then(From(s, steps[..|steps| - 1]), steps[|steps| - 1])
  }

  lemma {:induction false} RunFrom(a: seq<Step>, b: seq<Step>)
    ensures Run(a + b) == From(Run(a), b)
  {
    if b == [] {
      assert a + b == a;
    } else {
      RunFrom(a, b[..|b| - 1]);
      assert (a + b)[..|a + b| - 1] == a + b[..|b| - 1];
    }
  }

  lemma FromThen(s: State, steps: seq<Step>, step: Step)
    ensures From(s, steps + [step]) == Then(From(s, steps), step)
  {
    assert (steps + [step])[..|steps|] == steps;
  }

  function Begun(id: nat, engines: seq<string>): seq<Step> {
    [Ask(id, engines)] + [Acquire(id)] + [Clear(id)] + [Publish(id)]
  }

  /** Begin a run where nothing holds the lock. */
  lemma BeginsIn(s: State, id: nat, engines: seq<string>)
    requires s.lock.Nobody? && id !in s.runs
    ensures From(s, Begun(id, engines)) ==
            s.(lock := By(id), flag := false, inFlight := By(id),
               runs := s.runs[id := Comparison(engines, Running, [], Unsaid)])
  {
    FromThree(s, Ask(id, engines), Acquire(id), Clear(id));
    FromThen(s, [Ask(id, engines)] + [Acquire(id)] + [Clear(id)], Publish(id));
    FourSteps(s, id, engines);
  }

  lemma FromThree(s: State, a: Step, b: Step, c: Step)
    ensures From(s, [a] + [b] + [c]) == Then(Then(Then(s, a), b), c)
  {
    FromThen(s, [], a);
    assert [] + [a] == [a];
    FromThen(s, [a], b);
    FromThen(s, [a] + [b], c);
  }

  lemma FourSteps(s: State, id: nat, engines: seq<string>)
    requires s.lock.Nobody? && id !in s.runs
    ensures Then(Then(Then(Then(s, Ask(id, engines)), Acquire(id)), Clear(id)), Publish(id)) ==
            s.(lock := By(id), flag := false, inFlight := By(id),
               runs := s.runs[id := Comparison(engines, Running, [], Unsaid)])
  {
    var s1 := s.(runs := s.runs[id := Comparison(engines, Asked, [], Unsaid)]);
    assert Then(s, Ask(id, engines)) == s1;
    var s2 := s.(lock := By(id), runs := s.runs[id := Comparison(engines, Locked, [], Unsaid)]);
    assert Then(s1, Acquire(id)) == s2;
    var s3 := s.(lock := By(id), flag := false, runs := s.runs[id := Comparison(engines, Cleared, [], Unsaid)]);
    assert Then(s2, Clear(id)) == s3;
  }

  // ----- a run nobody cancels

  lemma {:induction false} FromConcat(s: State, a: seq<Step>, b: seq<Step>)
    ensures From(s, a + b) == From(From(s, a), b)
  {
    if b == [] {
      assert a + b == a;
    } else {
      FromConcat(s, a, b[..|b| - 1]);
      assert (a + b)[..|a + b| - 1] == a + b[..|b| - 1];
    }
  }

  /** Look at the flag and ask the next engine, so many times. */
  function Rounds(id: nat, n: nat): seq<Step> {
    if n == 0 then [] else Rounds(id, n - 1) + [Advance(id)] + [Answer(id)]
  }

  /** The run has had its first answers. */
  function Answering(s: State, id: nat, engines: seq<string>, n: nat): State
    requires n <= |engines|
  {
    s.(runs := s.runs[id := Comparison(engines, Running, engines[..n], Unsaid)])
  }

  lemma Round(s: State, id: nat, engines: seq<string>, n: nat)
    requires n < |engines| && !s.flag
    ensures Then(Then(Answering(s, id, engines, n), Advance(id)), Answer(id)) == Answering(s, id, engines, n + 1)
  {
    var asking := s.(runs := s.runs[id := Comparison(engines, Asking, engines[..n], Unsaid)]);
    assert Then(Answering(s, id, engines, n), Advance(id)) == asking;
    assert engines[..n] + [engines[n]] == engines[..n + 1];
  }

  lemma {:induction false} RoundsIn(s: State, id: nat, engines: seq<string>, n: nat)
    requires n <= |engines| && !s.flag
    ensures From(Answering(s, id, engines, 0), Rounds(id, n)) == Answering(s, id, engines, n)
  {
    if n > 0 {
      RoundsIn(s, id, engines, n - 1);
      FromThen(Answering(s, id, engines, 0), Rounds(id, n - 1), Advance(id));
      FromThen(Answering(s, id, engines, 0), Rounds(id, n - 1) + [Advance(id)], Answer(id));
      Round(s, id, engines, n - 1);
    }
  }

  function Ending(id: nat): seq<Step> {
    [Advance(id)] + [Report(id)] + [Withdraw(id)] + [Wipe(id)] + [Release(id)]
  }

  lemma EndsIn(s: State, id: nat, engines: seq<string>)
    requires !s.flag
    ensures From(Answering(s, id, engines, |engines|), Ending(id)) ==
            Through(s.(lock := Nobody, inFlight := Nobody), id, engines, Over, Finished)
  {
    var s0 := Answering(s, id, engines, |engines|);
    FromThree(s0, Advance(id), Report(id), Withdraw(id));
    FromThen(s0, [Advance(id)] + [Report(id)] + [Withdraw(id)], Wipe(id));
    FromThen(s0, [Advance(id)] + [Report(id)] + [Withdraw(id)] + [Wipe(id)], Release(id));
    assert engines[..|engines|] == engines;
    EndSteps(s, id, engines);
  }

  /** The run as it stands, in this phase with every answer. */
  function Through(s: State, id: nat, engines: seq<string>, phase: Phase, outcome: Outcome): State {
    s.(runs := s.runs[id := Comparison(engines, phase, engines, outcome)])
  }

  lemma ReportsIn(s: State, id: nat, engines: seq<string>)
    requires !s.flag
    ensures Then(Then(Through(s, id, engines, Running, Unsaid), Advance(id)), Report(id)) ==
            Through(s, id, engines, Reported, Finished)
  {
    assert Then(Through(s, id, engines, Running, Unsaid), Advance(id)) == Through(s, id, engines, Stopping, Unsaid);
  }

  lemma WithdrawsIn(s: State, id: nat, engines: seq<string>)
    requires !s.flag
    ensures Then(Then(Through(s, id, engines, Reported, Finished), Withdraw(id)), Wipe(id)) ==
            Through(s.(inFlight := Nobody), id, engines, Wiped, Finished)
  {
    assert Then(Through(s, id, engines, Reported, Finished), Withdraw(id)) ==
           Through(s.(inFlight := Nobody), id, engines, Withdrawn, Finished);
  }

  lemma ReleasesIn(s: State, id: nat, engines: seq<string>)
    ensures Then(Through(s, id, engines, Wiped, Finished), Release(id)) ==
            Through(s.(lock := Nobody), id, engines, Over, Finished)
  {
  }

  lemma EndSteps(s: State, id: nat, engines: seq<string>)
    requires !s.flag
    ensures
      var s0 := Through(s, id, engines, Running, Unsaid);
      Then(Then(Then(Then(Then(s0, Advance(id)), Report(id)), Withdraw(id)), Wipe(id)), Release(id)) ==
      Through(s.(lock := Nobody, inFlight := Nobody), id, engines, Over, Finished)
  {
    ReportsIn(s, id, engines);
    WithdrawsIn(s, id, engines);
    ReleasesIn(s.(inFlight := Nobody), id, engines);
  }

  /** Where nobody holds the lock a run that is left alone answers every engine in order, says
      that it finished, and leaves the lock free, nothing in flight and the flag down. */
  lemma RunCompletes(steps: seq<Step>, id: nat, engines: seq<string>)
    requires Run(steps).lock.Nobody? && id !in Run(steps).runs
    ensures Run(steps + (Begun(id, engines) + Rounds(id, |engines|) + Ending(id))) ==
            Run(steps).(lock := Nobody, flag := false, inFlight := Nobody,
                        runs := Run(steps).runs[id := Comparison(engines, Over, engines, Finished)])
  {
    var s := Run(steps);
    var begun, rounds := Begun(id, engines), Rounds(id, |engines|);
    RunFrom(steps, begun + rounds + Ending(id));
    FromConcat(s, begun + rounds, Ending(id));
    FromConcat(s, begun, rounds);
    BeginsIn(s, id, engines);
    var base := s.(lock := By(id), flag := false, inFlight := By(id));
    assert From(s, begun) == Answering(base, id, engines, 0);
    RoundsIn(base, id, engines, |engines|);
    EndsIn(base, id, engines);
  }

  /** A run whose client leaves says nothing, keeps its answers, and gives everything back. */
  lemma LeftRunEnds(s: State, id: nat, run: Comparison)
    requires s.lock == By(id) && id in s.runs && s.runs[id] == run && run.phase == Running
    ensures From(s, [Leave(id)] + [Withdraw(id)] + [Wipe(id)] + [Release(id)]) ==
            s.(lock := Nobody, flag := false, inFlight := Nobody, runs := s.runs[id := run.(phase := Over)])
  {
    FromThree(s, Leave(id), Withdraw(id), Wipe(id));
    FromThen(s, [Leave(id)] + [Withdraw(id)] + [Wipe(id)], Release(id));
    LeaveSteps(s, id, run);
    GiveBack(s.(inFlight := Nobody), id, run);
  }

  lemma LeaveSteps(s: State, id: nat, run: Comparison)
    requires id in s.runs && s.runs[id] == run && run.phase == Running
    ensures Then(Then(s, Leave(id)), Withdraw(id)) ==
            s.(inFlight := Nobody, runs := s.runs[id := run.(phase := Withdrawn)])
  {
    assert Then(s, Leave(id)) == s.(runs := s.runs[id := run.(phase := Reported)]);
  }

  lemma GiveBack(s: State, id: nat, run: Comparison)
    ensures
      var withdrawn := s.(runs := s.runs[id := run.(phase := Withdrawn)]);
      Then(Then(withdrawn, Wipe(id)), Release(id)) ==
      s.(lock := Nobody, flag := false, runs := s.runs[id := run.(phase := Over)])
  {
    var withdrawn := s.(runs := s.runs[id := run.(phase := Withdrawn)]);
    assert Then(withdrawn, Wipe(id)) == s.(flag := false, runs := s.runs[id := run.(phase := Wiped)]);
  }

  /** A run asked for while another holds the lock is refused and changes nothing else. */
  lemma SecondIsRefused(s: State, id: nat, engines: seq<string>)
    requires s.lock.By? && id !in s.runs
    ensures From(s, [Ask(id, engines)] + [Acquire(id)]) ==
            s.(runs := s.runs[id := Comparison(engines, Refused, [], Unsaid)])
  {
    FromThen(s, [], Ask(id, engines));
    assert [] + [Ask(id, engines)] == [Ask(id, engines)];
    FromThen(s, [Ask(id, engines)], Acquire(id));
    assert Then(s, Ask(id, engines)) == s.(runs := s.runs[id := Comparison(engines, Asked, [], Unsaid)]);
  }

  function Stopped(cancel: nat, id: nat): seq<Step> { [Set(cancel)] + [Advance(id)] + [Report(id)] }

  /** The flag set on a run that has not started its first engine. */
  lemma StopsIn(s: State, cancel: nat, id: nat, engines: seq<string>)
    requires cancel in s.cancels && s.cancels[cancel].By?
    requires s.lock == By(id) && id in s.runs && s.runs[id] == Comparison(engines, Running, [], Unsaid)
    ensures
      var t := From(s, Stopped(cancel, id));
      && id in t.runs && t.runs[id] == Comparison(engines, Reported, [], Cancelled)
      && t.reached == s.reached + {(s.cancels[cancel].id, id)}
  {
    FromThree(s, Set(cancel), Advance(id), Report(id));
    StopSteps(s, cancel, id, Comparison(engines, Running, [], Unsaid));
  }

  lemma StopSteps(s: State, cancel: nat, id: nat, run: Comparison)
    requires cancel in s.cancels && s.cancels[cancel].By?
    requires s.lock == By(id) && id in s.runs && s.runs[id] == run && run.phase == Running
    ensures Then(Then(Then(s, Set(cancel)), Advance(id)), Report(id)) ==
            s.(flag := true, reached := s.reached + {(s.cancels[cancel].id, id)},
               runs := s.runs[id := run.(phase := Reported, outcome := Cancelled)])
  {
    var s1 := s.(flag := true, reached := s.reached + {(s.cancels[cancel].id, id)});
    assert Then(s, Set(cancel)) == s1;
    var s2 := s1.(runs := s.runs[id := run.(phase := Stopping)]);
    assert Then(s1, Advance(id)) == s2;
  }

  /** A cancel that reads a run in flight and sets the flag stops it before its next engine: it
      keeps its answers and says that it was cancelled. */
  lemma CancelStops(s: State, cancel: nat, id: nat, run: Comparison)
    requires s.lock == s.inFlight == By(id) && cancel !in s.cancels
    requires id in s.runs && s.runs[id] == run && run.phase == Running
    ensures From(s, [Look(cancel)] + Stopped(cancel, id)) ==
            s.(flag := true, cancels := s.cancels[cancel := By(id)], reached := s.reached + {(id, id)},
               runs := s.runs[id := run.(phase := Reported, outcome := Cancelled)])
  {
    var looked := s.(cancels := s.cancels[cancel := By(id)]);
    FromConcat(s, [Look(cancel)], Stopped(cancel, id));
    FromThen(s, [], Look(cancel));
    assert [] + [Look(cancel)] == [Look(cancel)];
    assert Then(s, Look(cancel)) == looked;
    FromThree(looked, Set(cancel), Advance(id), Report(id));
    StopSteps(looked, cancel, id, run);
  }

  /** A cancel that read one run and then waits stops the next one instead: from any state with
      the lock free and such a cancel outstanding, a new run can be stopped before its first
      engine, and says it was cancelled, though nothing ever read it. */
  lemma StaleCancelStopsNextRun(steps: seq<Step>, cancel: nat, id: nat, engines: seq<string>)
    requires
      var s := Run(steps);
      && s.lock.Nobody? && id !in s.runs && engines != []
      && cancel in s.cancels && s.cancels[cancel].By?
    ensures
      var s := Run(steps + Begun(id, engines) + Stopped(cancel, id));
      && id in s.runs && s.runs[id].outcome == Cancelled && s.runs[id].answered == [] != engines
      && (id, id) !in s.reached
  {
    var s := Run(steps);
    var begun := steps + Begun(id, engines);
    RunsAreOk(steps);
    ReadsAreRuns(steps);
    RunFrom(steps, Begun(id, engines));
    BeginsIn(s, id, engines);
    RunFrom(begun, Stopped(cancel, id));
    StopsIn(Run(begun), cancel, id, engines);
  }

  /** A cancel reads only runs there are. */
  ghost predicate ReadsRuns(s: State) {
    forall c :: c in s.cancels && s.cancels[c].By? ==> s.cancels[c].id in s.runs
  }

  lemma NextReadsRuns(s: State, step: Step)
    requires ReadsRuns(s) && Allowed(s, step) && (s.inFlight.By? ==> s.inFlight.id in s.runs)
    ensures ReadsRuns(Next(s, step))
  {
    var t := Next(s, step);
    assert s.runs.Keys <= t.runs.Keys;
    if step.Look? {
      assert t.runs == s.runs && t.cancels == s.cancels[step.cancel := s.inFlight];
    } else {
      assert t.cancels == s.cancels;
    }
  }

  lemma {:induction false} ReadsAreRuns(steps: seq<Step>)
    ensures ReadsRuns(Run(steps))
  {
    if steps != [] {
      var s, step := Run(steps[..|steps| - 1]), steps[|steps| - 1];
      ReadsAreRuns(steps[..|steps| - 1]);
      RunsAreOk(steps[..|steps| - 1]);
      if Allowed(s, step) {
        NextReadsRuns(s, step);
      }
    }
  }

  /** Such a state is reached: a run is published, a cancel reads it, and it ends. */
  lemma StaleCancelHappens()
    ensures
      var s := Run(Begun(0, ["spark"]) + [Look(0)] + [Leave(0)] + [Withdraw(0)] + [Wipe(0)] + [Release(0)]);
      s.lock.Nobody? && s.runs.Keys == {0} && 0 in s.cancels && s.cancels[0] == By(0)
  {
    FirstLooked();
    LeaveFrees(Begun(0, ["spark"]) + [Look(0)], 0);
  }

  lemma FirstLooked()
    ensures Run(Begun(0, ["spark"]) + [Look(0)]) ==
            State(By(0), false, By(0), map[0 := Comparison(["spark"], Running, [], Unsaid)], map[0 := By(0)], {})
  {
    var b := Begun(0, ["spark"]);
    RunFrom([], b);
    assert [] + b == b;
    BeginsIn(IDLE, 0, ["spark"]);
    LookReads(b, 0);
  }

  lemma LookReads(steps: seq<Step>, cancel: nat)
    requires cancel !in Run(steps).cancels
    ensures Run(steps + [Look(cancel)]) ==
            Run(steps).(cancels := Run(steps).cancels[cancel := Run(steps).inFlight])
  {
    assert (steps + [Look(cancel)])[..|steps|] == steps;
  }

  /** One of the steps that end a run. */
  lemma EndStep(steps: seq<Step>, step: Step)
    requires step.Leave? || step.Withdraw? || step.Wipe? || step.Release?
    requires step.id in Run(steps).runs && Ready(Run(steps).runs[step.id], step)
    ensures
      var s, t := Run(steps), Run(steps + [step]);
      && t.runs.Keys == s.runs.Keys && t.cancels == s.cancels && t.lock == Lock(s, step)
      && t.runs[step.id].phase == Own(s.runs[step.id], step, s.flag, false).phase
  {
    assert (steps + [step])[..|steps|] == steps;
  }

  lemma LeaveFrees(steps: seq<Step>, id: nat)
    requires id in Run(steps).runs && Run(steps).runs[id].phase == Running
    ensures
      var s, t := Run(steps), Run(steps + [Leave(id)] + [Withdraw(id)] + [Wipe(id)] + [Release(id)]);
      t.lock.Nobody? && t.runs.Keys == s.runs.Keys && t.cancels == s.cancels
  {
    EndStep(steps, Leave(id));
    var a := steps + [Leave(id)];
    EndStep(a, Withdraw(id));
    var b := a + [Withdraw(id)];
    EndStep(b, Wipe(id));
    EndStep(b + [Wipe(id)], Release(id));
  }
}
