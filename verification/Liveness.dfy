/**
  Whether dispatched queries finish. A compute unit reports each item once, and the tracker keeps one
  completion per plan id and item id. Runs are bounded, and those that cannot go on have finished all
  queries exactly when no two queries share both ids.
 */
module Liveness {
  import opened PlanGraph
  import opened WorkItems
  import opened Dispatcher
  import Tracker = CompletionTracker

  /** No two queries have both the plan id and an item id in common; distinct plan ids are enough. */
  ghost predicate IdsApart(system: seq<Query>) {
    forall q, id :: 0 <= q < |system| && id in Ids(system[q].items) ==> Own(system, q, id)
  }

  ghost predicate Plans(system: seq<Query>) {
    forall q :: 0 <= q < |system| ==> system[q].items != [] && IsPlan(system[q])
  }

  ghost predicate AllFinished<V>(s: State<V>) {
    forall q :: 0 <= q < |s.query| ==> s.query[q].phase.Finished?
  }

  /** The run can happen, has no shutdown and reports no item a second time from its `n`-th event on. */
  ghost predicate Regular<V>(system: seq<Query>, sem: (string, seq<V>) -> V, n: nat, events: seq<Event>) {
    && Run(system, sem, events).Some? && !Run(system, sem, events).value.tracker.stopped
    && OnceFrom(system, sem, n, events)
  }

  /** After the run all queries can still finish, without a shutdown and without a repeated report. */
  ghost predicate CanFinish<V>(system: seq<Query>, sem: (string, seq<V>) -> V, events: seq<Event>) {
    exists more ::
      Regular(system, sem, |events|, events + more) && AllFinished(Run(system, sem, events + more).value)
  }

  /** After every run that reports each item at most once, all queries can still finish. */
  ghost predicate Live<V>(system: seq<Query>, sem: (string, seq<V>) -> V) {
    forall events :: Regular(system, sem, 0, events) ==> CanFinish(system, sem, events)
  }

  /** Nothing can happen but a shutdown or a repeated report. */
  ghost predicate Stuck<V>(system: seq<Query>, s: State<V>)
    requires |s.query| == |system|
  {
    forall e :: e != Shutdown ==> !(Enabled(system, s, e) && Fresh(s, e))
  }

  /** Every run that reports each item at most once and cannot go on has finished all queries. */
  ghost predicate AlwaysFinishes<V>(system: seq<Query>, sem: (string, seq<V>) -> V) {
    forall events :: Regular(system, sem, 0, events) && Stuck(system, Run(system, sem, events).value) ==>
      AllFinished(Run(system, sem, events).value)
  }

  // ---- What every run keeps when ids are apart ----

  ghost predicate AllSent(batch: seq<WorkItem>, n: nat, sent: set<int>) {
    forall i :: 0 <= i < n && i < |batch| ==> batch[i].itemId in sent
  }

  /** What the query's phase says has been sent. */
  ghost predicate PhaseOk<V>(query: Query, p: Progress<V>) {
    var batches := Batches(query.items);
    match p.phase
    case Sending(b, j) => b < |batches| && j <= |batches[b]| && AllSent(batches[b], j, p.sent)
    case Waiting(b) => b < |batches| && AllSent(batches[b], |batches[b]|, p.sent)
    case _ => true
  }

  /** The item's batch is not yet through. */
  ghost predicate Ahead(query: Query, phase: Phase, id: int) {
    id in Levels(query.items) && Reached(query, phase) <= Levels(query.items)[id]
  }

  /** What was reported of the batches not yet through is still in the tracker. */
  ghost predicate PendingOk<V>(query: Query, p: Progress<V>, tracker: Tracker.State) {
    forall item :: item in query.items && item.itemId in p.reported && Ahead(query, p.phase, item.itemId) ==>
      (PlanId(query), item.itemId) in tracker.completed
  }

  ghost predicate QueryLive<V>(query: Query, p: Progress<V>, tracker: Tracker.State) {
    p.phase.GaveUp? || (PhaseOk(query, p) && PendingOk(query, p, tracker))
  }

  ghost predicate LiveInvariant<V>(system: seq<Query>, s: State<V>) {
    && |s.query| == |system|
    && forall q :: 0 <= q < |system| ==>
         QueryLive(system[q], s.query[q], s.tracker) && (s.query[q].phase.GaveUp? ==> s.tracker.stopped)
  }

  /** Changing one query, and the tracker only in completions that are not of other queries. */
  lemma UpdateKeepsLive<V>(system: seq<Query>, s: State<V>, q: nat, p: Progress<V>, tracker: Tracker.State)
    requires LiveInvariant(system, s) && q < |system| && QueryLive(system[q], p, tracker)
    requires (s.tracker.stopped ==> tracker.stopped) && (p.phase.GaveUp? ==> tracker.stopped)
    requires forall r, id :: 0 <= r < |system| && r != q && id in Ids(system[r].items) ==>
      (PlanId(system[r]), id) in s.tracker.completed ==> (PlanId(system[r]), id) in tracker.completed
    ensures LiveInvariant(system, State(tracker, s.query[q := p]))
  {
    forall r | 0 <= r < |system| && r != q ensures QueryLive(system[r], s.query[r], tracker) {
      assert QueryLive(system[r], s.query[r], s.tracker);
      assert forall item :: item in system[r].items ==> item.itemId in Ids(system[r].items);
    }
  }

  lemma SendKeepsLive<V>(system: seq<Query>, sem: (string, seq<V>) -> V, s: State<V>, q: nat)
    requires LiveInvariant(system, s) && Enabled(system, s, Send(q))
    ensures LiveInvariant(system, Next(system, sem, s, Send(q)))
  {
    var p, p' := s.query[q], Next(system, sem, s, Send(q)).query[q];
    assert QueryLive(system[q], p, s.tracker);
    assert PhaseOk(system[q], p');
    assert PendingOk(system[q], p', s.tracker);
    UpdateKeepsLive(system, s, q, p', s.tracker);
  }

  lemma WaitKeepsLive<V>(system: seq<Query>, sem: (string, seq<V>) -> V, s: State<V>, e: Event)
    requires LiveInvariant(system, s) && Enabled(system, s, e) && (e.StartWait? || e.GiveUp?)
    ensures LiveInvariant(system, Next(system, sem, s, e))
  {
    var p, p' := s.query[e.q], Next(system, sem, s, e).query[e.q];
    assert QueryLive(system[e.q], p, s.tracker);
    assert e.StartWait? ==> PhaseOk(system[e.q], p') && PendingOk(system[e.q], p', s.tracker);
    UpdateKeepsLive(system, s, e.q, p', s.tracker);
  }

  lemma ExecuteKeepsLive<V>(system: seq<Query>, sem: (string, seq<V>) -> V, s: State<V>, q: nat, k: nat)
    requires LiveInvariant(system, s) && Enabled(system, s, Execute(q, k))
    ensures LiveInvariant(system, Next(system, sem, s, Execute(q, k)))
  {
    var p, p' := s.query[q], Next(system, sem, s, Execute(q, k)).query[q];
    assert QueryLive(system[q], p, s.tracker);
    assert PhaseOk(system[q], p) ==> PhaseOk(system[q], p');
    UpdateKeepsLive(system, s, q, p', s.tracker);
  }

  lemma ReportKeepsLive<V>(system: seq<Query>, sem: (string, seq<V>) -> V, s: State<V>, q: nat, id: int)
    requires Plans(system) && LiveInvariant(system, s) && Enabled(system, s, Report(q, id))
    ensures LiveInvariant(system, Next(system, sem, s, Report(q, id)))
  {
    var s' := Next(system, sem, s, Report(q, id));
    var p, p' := s.query[q], s'.query[q];
    assert QueryLive(system[q], p, s.tracker);
    assert PhaseOk(system[q], p) ==> PhaseOk(system[q], p');
    if id in Ids(system[q].items) {
      AnswerHasPlanId(system[q].items, id, PlanId(system[q]));
    }
    assert forall item :: item in system[q].items ==> item.itemId in Ids(system[q].items);
    UpdateKeepsLive(system, s, q, p', s'.tracker);
  }

  /** A wait that returned takes only ids of its own batch, which other queries do not have. */
  lemma WaitTakesOwn(system: seq<Query>, q: nat, b: nat, r: nat, id: int)
    requires IdsApart(system) && Plans(system) && q < |system| && r < |system| && b < |Batches(system[q].items)|
    requires (PlanId(system[r]), id) in WaitIds(system[q], b) && id in Ids(system[r].items)
    ensures r == q && id in Levels(system[q].items) && Levels(system[q].items)[id] == b
  {
    var items, batch := system[q].items, Batches(system[q].items)[b];
    var i :| 0 <= i < |batch| && WaitIds(system[q], b)[i] == (PlanId(system[r]), id);
    BatchesAreLevels(items, batch[i]);
    assert batch[i] in Batches(items)[b];
    assert id in Ids(items);
    assert Own(system, q, id);
  }

  lemma WaitLeavesOthers(system: seq<Query>, q: nat, b: nat, completed: set<Tracker.Id>, r: nat, id: int)
    requires IdsApart(system) && Plans(system) && q < |system| && r < |system| && b < |Batches(system[q].items)|
    requires id in Ids(system[r].items) && (PlanId(system[r]), id) in completed
    requires r != q || id !in Levels(system[q].items) || Levels(system[q].items)[id] != b
    ensures (PlanId(system[r]), id) in completed - set x | x in WaitIds(system[q], b)
  {
    if (PlanId(system[r]), id) in WaitIds(system[q], b) {
      WaitTakesOwn(system, q, b, r, id);
    }
  }

  lemma ContinueKeepsLive<V>(system: seq<Query>, sem: (string, seq<V>) -> V, s: State<V>, q: nat)
    requires IdsApart(system) && Plans(system) && LiveInvariant(system, s) && Enabled(system, s, Continue(q))
    ensures LiveInvariant(system, Next(system, sem, s, Continue(q)))
  {
    var s' := Next(system, sem, s, Continue(q));
    var query, p, p', b := system[q], s.query[q], s'.query[q], s.query[q].phase.batch;
    assert QueryLive(query, p, s.tracker);
    assert s'.tracker.completed == s.tracker.completed - set x | x in WaitIds(query, b);
    forall r, id |
      0 <= r < |system| && r != q && id in Ids(system[r].items) && (PlanId(system[r]), id) in s.tracker.completed
      ensures (PlanId(system[r]), id) in s'.tracker.completed
    {
      WaitLeavesOthers(system, q, b, s.tracker.completed, r, id);
    }
    assert Reached(query, p'.phase) == b + 1;
    forall item | item in query.items && item.itemId in p'.reported && Ahead(query, p'.phase, item.itemId)
      ensures (PlanId(query), item.itemId) in s'.tracker.completed
    {
      assert item.itemId in Ids(query.items) && Ahead(query, p.phase, item.itemId);
      WaitLeavesOthers(system, q, b, s.tracker.completed, q, item.itemId);
    }
    assert PhaseOk(query, p');
    UpdateKeepsLive(system, s, q, p', s'.tracker);
  }

  lemma StepKeepsLive<V>(system: seq<Query>, sem: (string, seq<V>) -> V, s: State<V>, e: Event)
    requires IdsApart(system) && Plans(system) && LiveInvariant(system, s) && Enabled(system, s, e)
    ensures LiveInvariant(system, Next(system, sem, s, e))
  {
    match e {
      case Shutdown =>
      case Send(q) => SendKeepsLive(system, sem, s, q);
      case StartWait(_) => WaitKeepsLive(system, sem, s, e);
      case Continue(q) => ContinueKeepsLive(system, sem, s, q);
      case GiveUp(_) => WaitKeepsLive(system, sem, s, e);
      case Execute(q, k) => ExecuteKeepsLive(system, sem, s, q, k);
      case Report(q, id) => ReportKeepsLive(system, sem, s, q, id);
    }
  }

  lemma {:induction false} RunKeepsLive<V>(system: seq<Query>, sem: (string, seq<V>) -> V, events: seq<Event>)
    requires IdsApart(system) && Plans(system) && Run(system, sem, events).Some?
    ensures LiveInvariant(system, Run(system, sem, events).value)
  {
    if events == [] {
      forall q | 0 <= q < |system| ensures |Batches(system[q].items)| > 0 {
        BatchesAreLevels(system[q].items, system[q].items[0]);
        assert system[q].items[0] in system[q].items;
      }
    } else {
      var before := events[..|events| - 1];
      RunKeepsLive(system, sem, before);
      StepKeepsLive(system, sem, Run(system, sem, before).value, events[|events| - 1]);
    }
  }

  // ---- Runs are bounded ----

  /** What sending and waiting for the batches from `b` on takes. */
  ghost function RoundsLeft(query: Query, b: nat): nat
    decreases |Batches(query.items)| - b
  {
    if b >= |Batches(query.items)| then 0 else |Batches(query.items)[b]| + 2 + RoundsLeft(query, b + 1)
  }

  ghost function PhaseLeft(query: Query, phase: Phase): nat {
    match phase
    case Sending(b, j) =>
      if b < |Batches(query.items)| && j <= |Batches(query.items)[b]| then RoundsLeft(query, b) - j else 0
    case Waiting(b) => 1 + RoundsLeft(query, b + 1)
    case _ => 0
  }

  /** How many steps of the query are left at most. */
  ghost function StepsLeft<V>(query: Query, p: Progress<V>): nat {
    |Ids(query.items) - p.value.Keys| + |Ids(query.items) - p.reported| + PhaseLeft(query, p.phase)
  }

  ghost function TotalLeft<V>(system: seq<Query>, progress: seq<Progress<V>>): nat
    requires |progress| == |system|
  {
    if system == [] then 0
    else
      var n := |system| - 1;
      TotalLeft(system[..n], progress[..n]) + StepsLeft(system[n], progress[n])
  }

  lemma {:induction false} TotalDrops<V>(system: seq<Query>, progress: seq<Progress<V>>, q: nat, p: Progress<V>)
    requires |progress| == |system| && q < |system| && StepsLeft(system[q], p) < StepsLeft(system[q], progress[q])
    ensures TotalLeft(system, progress[q := p]) < TotalLeft(system, progress)
  {
    var n := |system| - 1;
    if q < n {
      TotalDrops(system[..n], progress[..n], q, p);
      assert progress[q := p][..n] == progress[..n][q := p];
    } else {
      assert progress[q := p][..n] == progress[..n];
    }
  }

  lemma LessLeft(ids: set<int>, done: set<int>, id: int)
    requires id in ids && id !in done
    ensures |ids - (done + {id})| < |ids - done|
  {
    CardinalityStrict(ids - (done + {id}), ids - done) by {
      assert id in ids - done;
    }
  }

  /** Query `q` has moved and has fewer steps left. */
  ghost predicate Shrinks<V>(system: seq<Query>, s: State<V>, s': State<V>, q: nat) {
    && |s.query| == |s'.query| == |system| && q < |system| && s'.query == s.query[q := s'.query[q]]
    && StepsLeft(system[q], s'.query[q]) < StepsLeft(system[q], s.query[q])
  }

  lemma PhaseShrinks<V>(system: seq<Query>, sem: (string, seq<V>) -> V, s: State<V>, e: Event)
    requires |s.query| == |system| && Enabled(system, s, e) && (e.Send? || e.StartWait? || e.Continue?)
    ensures Shrinks(system, s, Next(system, sem, s, e), e.q)
  {
    var s' := Next(system, sem, s, e);
    var query, p, p' := system[e.q], s.query[e.q], s'.query[e.q];
    assert p' == Progress(p'.phase, p'.sent, p.value, p.reported);
    SmallerPhase(query, p.phase, p'.phase);
  }

  lemma SmallerPhase(query: Query, phase: Phase, phase': Phase)
    requires phase.Sending? || phase.Waiting?
    requires phase.batch < |Batches(query.items)|
    requires var b, n := phase.batch, |Batches(query.items)[phase.batch]|;
      match phase
      case Sending(_, j) => j <= n && phase' == if j < n then Sending(b, j + 1) else Waiting(b)
      case Waiting(_) => phase' == if b + 1 < |Batches(query.items)| then Sending(b + 1, 0) else Finished
    ensures PhaseLeft(query, phase') < PhaseLeft(query, phase)
  {
    var b := phase.batch;
    assert RoundsLeft(query, b) == |Batches(query.items)[b]| + 2 + RoundsLeft(query, b + 1);
  }

  lemma ExecuteShrinks<V>(system: seq<Query>, sem: (string, seq<V>) -> V, s: State<V>, q: nat, k: nat)
    requires |s.query| == |system| && Enabled(system, s, Execute(q, k))
    ensures Shrinks(system, s, Next(system, sem, s, Execute(q, k)), q)
  {
    var id, p, p' := system[q].items[k].itemId, s.query[q], Next(system, sem, s, Execute(q, k)).query[q];
    LessLeft(Ids(system[q].items), p.value.Keys, id);
    assert p'.value.Keys == p.value.Keys + {id};
    assert p'.reported == p.reported && p'.phase == p.phase;
  }

  lemma ReportShrinks<V>(system: seq<Query>, sem: (string, seq<V>) -> V, s: State<V>, q: nat, id: int)
    requires |s.query| == |system| && Enabled(system, s, Report(q, id)) && Fresh(s, Report(q, id))
    requires id in Ids(system[q].items)
    ensures Shrinks(system, s, Next(system, sem, s, Report(q, id)), q)
  {
    LessLeft(Ids(system[q].items), s.query[q].reported, id);
  }

  lemma ShrinksTotal<V>(system: seq<Query>, s: State<V>, s': State<V>, q: nat)
    requires Shrinks(system, s, s', q)
    ensures TotalLeft(system, s'.query) < TotalLeft(system, s.query)
  {
    TotalDrops(system, s.query, q, s'.query[q]);
  }

  /** Every step but a shutdown or a repeated report brings the end closer. */
  lemma StepShrinks<V>(system: seq<Query>, sem: (string, seq<V>) -> V, s: State<V>, e: Event)
    requires |s.query| == |system| && !s.tracker.stopped && Enabled(system, s, e) && Fresh(s, e) && e != Shutdown
    requires forall q :: 0 <= q < |system| ==> s.query[q].value.Keys <= Ids(system[q].items)
    ensures e.q < |system| && Shrinks(system, s, Next(system, sem, s, e), e.q)
  {
    match e {
      case Execute(q, k) => ExecuteShrinks(system, sem, s, q, k);
      case Report(q, id) => ReportShrinks(system, sem, s, q, id);
      case _ => PhaseShrinks(system, sem, s, e);
    }
  }

  lemma {:induction false} ValuesAreOfItems<V>(system: seq<Query>, sem: (string, seq<V>) -> V, events: seq<Event>,
                                               q: nat)
    requires Run(system, sem, events).Some? && q < |system|
    ensures Run(system, sem, events).value.query[q].value.Keys <= Ids(system[q].items)
  {
    if events != [] {
      ValuesAreOfItems(system, sem, events[..|events| - 1], q);
    }
  }

  lemma RunShrinks<V>(system: seq<Query>, sem: (string, seq<V>) -> V, events: seq<Event>, e: Event)
    requires Run(system, sem, events).Some? && Enabled(system, Run(system, sem, events).value, e)
    requires !Run(system, sem, events).value.tracker.stopped
    requires Fresh(Run(system, sem, events).value, e) && e != Shutdown
    ensures var s := Run(system, sem, events).value;
      TotalLeft(system, Next(system, sem, s, e).query) < TotalLeft(system, s.query)
  {
    forall q | 0 <= q < |system| ensures Run(system, sem, events).value.query[q].value.Keys <= Ids(system[q].items) {
      ValuesAreOfItems(system, sem, events, q);
    }
    var s := Run(system, sem, events).value;
    StepShrinks(system, sem, s, e);
    ShrinksTotal(system, s, Next(system, sem, s, e), e.q);
  }

  /** A run that reports each item at most once and is not shut down has bounded length. */
  lemma {:induction false} RunsAreBounded<V>(system: seq<Query>, sem: (string, seq<V>) -> V, events: seq<Event>)
    requires Regular(system, sem, 0, events)
    ensures |events| + TotalLeft(system, Run(system, sem, events).value.query)
      <= TotalLeft(system, Init<V>(system).query)
  {
    if events != [] {
      var before, e := events[..|events| - 1], events[|events| - 1];
      assert Regular(system, sem, 0, before);
      RunsAreBounded(system, sem, before);
      RunShrinks(system, sem, before, e);
    }
  }

  // ---- Every query can finish ----

  /** The item a waiting query lacks has been sent but not reported. */
  lemma MissingItem<V>(system: seq<Query>, s: State<V>, q: nat) returns (k: nat)
    requires Plans(system) && LiveInvariant(system, s) && !s.tracker.stopped
    requires q < |system| && s.query[q].phase.Waiting?
    requires !Tracker.AllCompleted(s.tracker, WaitIds(system[q], s.query[q].phase.batch))
    ensures k < |system[q].items| && system[q].items[k].itemId in s.query[q].sent
    ensures system[q].items[k].itemId !in s.query[q].reported
  {
    var query, p, b := system[q], s.query[q], s.query[q].phase.batch;
    var batch := Batches(query.items)[b];
    assert QueryLive(query, p, s.tracker);
    var i :| 0 <= i < |batch| && WaitIds(query, b)[i] !in s.tracker.completed;
    BatchesAreLevels(query.items, batch[i]);
    assert batch[i] in Batches(query.items)[b];
    k :| 0 <= k < |query.items| && query.items[k] == batch[i];
    assert Ahead(query, p.phase, batch[i].itemId);
  }

  /** An unfinished query has a step: while it waits, the missing item can be executed or reported. */
  lemma UnfinishedCanStep<V>(system: seq<Query>, s: State<V>, q: nat) returns (e: Event)
    requires Plans(system) && LiveInvariant(system, s) && !s.tracker.stopped
    requires q < |system| && !s.query[q].phase.Finished?
    ensures Enabled(system, s, e) && Fresh(s, e) && e != Shutdown
  {
    var query, p := system[q], s.query[q];
    assert QueryLive(query, p, s.tracker);
    match p.phase {
      case Sending(b, j) =>
        e := if j < |Batches(query.items)[b]| then Send(q) else StartWait(q);
      case Waiting(b) =>
        if Tracker.AllCompleted(s.tracker, WaitIds(query, b)) {
          e := Continue(q);
        } else {
          var k := MissingItem(system, s, q);
          var id := query.items[k].itemId;
          e := if id in p.value then Report(q, id) else Execute(q, k);
        }
    }
  }

  /** With ids apart, a run that cannot go on has finished all queries, whatever it has reported twice. */
  lemma StuckIsFinished<V>(system: seq<Query>, sem: (string, seq<V>) -> V, events: seq<Event>)
    requires IdsApart(system) && Plans(system) && Run(system, sem, events).Some?
    requires !Run(system, sem, events).value.tracker.stopped && Stuck(system, Run(system, sem, events).value)
    ensures AllFinished(Run(system, sem, events).value)
  {
    var s := Run(system, sem, events).value;
    RunKeepsLive(system, sem, events);
    forall q | 0 <= q < |system| ensures s.query[q].phase.Finished? {
      if !s.query[q].phase.Finished? {
        var e := UnfinishedCanStep(system, s, q);
      }
    }
  }

  lemma GoOn<V>(system: seq<Query>, sem: (string, seq<V>) -> V, n: nat, events: seq<Event>) returns (e: Event)
    requires Regular(system, sem, n, events) && !Stuck(system, Run(system, sem, events).value)
    ensures Regular(system, sem, n, events + [e])
    ensures TotalLeft(system, Run(system, sem, events + [e]).value.query)
      < TotalLeft(system, Run(system, sem, events).value.query)
  {
    var s := Run(system, sem, events).value;
    e :| e != Shutdown && Enabled(system, s, e) && Fresh(s, e);
    RunShrinks(system, sem, events, e);
    assert (events + [e])[..|events|] == events;
  }

  lemma {:induction false} RunOn<V>(system: seq<Query>, sem: (string, seq<V>) -> V, n: nat, events: seq<Event>)
    returns (all: seq<Event>)
    requires Regular(system, sem, n, events)
    ensures Regular(system, sem, n, all) && Stuck(system, Run(system, sem, all).value)
    ensures |events| <= |all| && all[..|events|] == events
    decreases TotalLeft(system, Run(system, sem, events).value.query)
  {
    if Stuck(system, Run(system, sem, events).value) {
      all := events;
    } else {
      var e := GoOn(system, sem, n, events);
      all := RunOn(system, sem, n, events + [e]);
      PrefixOfPrefix(all, events, [e]);
    }
  }

  lemma PrefixOfPrefix<T>(s: seq<T>, a: seq<T>, b: seq<T>)
    requires |a + b| <= |s| && s[..|a + b|] == a + b
    ensures s[..|a|] == a
  {
    assert (a + b)[..|a|] == a;
  }

  /** Every run can be continued, without a shutdown and without a repeated report, until it cannot go on. */
  lemma ExtendToStuck<V>(system: seq<Query>, sem: (string, seq<V>) -> V, n: nat, events: seq<Event>)
    returns (more: seq<Event>)
    requires Regular(system, sem, n, events)
    ensures Regular(system, sem, n, events + more) && Stuck(system, Run(system, sem, events + more).value)
  {
    var all := RunOn(system, sem, n, events);
    more := all[|events|..];
    assert all == events + more;
  }

  /** With ids apart all queries can finish after every run, even one that has reported items twice. */
  lemma ApartIsLive<V>(system: seq<Query>, sem: (string, seq<V>) -> V, events: seq<Event>)
    requires IdsApart(system) && Plans(system) && Run(system, sem, events).Some?
    requires !Run(system, sem, events).value.tracker.stopped
    ensures CanFinish(system, sem, events)
  {
    var more := ExtendToStuck(system, sem, |events|, events);
    StuckIsFinished(system, sem, events + more);
  }

  // ---- A shared id can lose a completion ----

  /** The queries that wait for completions of plan id `p` and item id `x`. */
  ghost function Holders(system: seq<Query>, p: int, x: int): set<nat> {
    set q: nat | q < |system| && PlanId(system[q]) == p && x in Ids(system[q].items)
  }

  ghost function Reporters<V>(system: seq<Query>, s: State<V>, p: int, x: int): set<nat>
    requires |s.query| == |system|
  {
    set q | q in Holders(system, p, x) && x in s.query[q].reported
  }

  /** The queries whose wait for the id is behind them. */
  ghost function Through<V>(system: seq<Query>, s: State<V>, p: int, x: int): set<nat>
    requires |s.query| == |system|
  {
    set q | q in Holders(system, p, x) && x in Levels(system[q].items) && !Ahead(system[q], s.query[q].phase, x)
  }

  /** There are fewer completions of the id, taken or to be taken, than reports. */
  ghost predicate OneLost<V>(system: seq<Query>, s: State<V>, p: int, x: int) {
    && |s.query| == |system|
    && (forall q :: 0 <= q < |system| ==> s.query[q].value.Keys <= Ids(system[q].items))
    && |Through(system, s, p, x)| + (if (p, x) in s.tracker.completed then 1 else 0) < |Reporters(system, s, p, x)|
  }

  /** A step that changes neither reports nor waits of the id keeps the loss. */
  lemma SameKeepsLost<V>(system: seq<Query>, s: State<V>, s': State<V>, p: int, x: int)
    requires OneLost(system, s, p, x) && |s'.query| == |system|
    requires forall q :: 0 <= q < |system| ==> s'.query[q].value.Keys <= Ids(system[q].items)
    requires (p, x) in s'.tracker.completed ==> (p, x) in s.tracker.completed
    requires forall q :: q in Holders(system, p, x) ==>
      && (x in s.query[q].reported ==> x in s'.query[q].reported)
      && (Ahead(system[q], s.query[q].phase, x) ==> Ahead(system[q], s'.query[q].phase, x))
    ensures OneLost(system, s', p, x)
  {
    CardinalityMonotone(Through(system, s', p, x), Through(system, s, p, x));
    CardinalityMonotone(Reporters(system, s, p, x), Reporters(system, s', p, x));
  }

  lemma HolderReports<V>(system: seq<Query>, s: State<V>, s': State<V>, q: nat, p: int, x: int)
    requires OneLost(system, s, p, x) && q in Holders(system, p, x) && x !in s.query[q].reported
    requires s'.query == s.query[q := s.query[q].(reported := s.query[q].reported + {x})]
    ensures OneLost(system, s', p, x)
  {
    assert Reporters(system, s', p, x) == Reporters(system, s, p, x) + {q};
    assert Through(system, s', p, x) == Through(system, s, p, x);
  }

  lemma ReportKeepsLost<V>(system: seq<Query>, sem: (string, seq<V>) -> V, s: State<V>, q: nat, id: int, p: int, x: int)
    requires Plans(system) && OneLost(system, s, p, x)
    requires Enabled(system, s, Report(q, id)) && Fresh(s, Report(q, id))
    ensures OneLost(system, Next(system, sem, s, Report(q, id)), p, x)
  {
    var s' := Next(system, sem, s, Report(q, id));
    AnswerHasPlanId(system[q].items, id, PlanId(system[q]));
    if (PlanId(system[q]), id) == (p, x) {
      HolderReports(system, s, s', q, p, x);
    } else {
      SameKeepsLost(system, s, s', p, x);
    }
  }

  lemma HolderContinues<V>(system: seq<Query>, s: State<V>, s': State<V>, q: nat, p: int, x: int)
    requires OneLost(system, s, p, x) && q in Holders(system, p, x) && x in Levels(system[q].items)
    requires (p, x) in s.tracker.completed && (p, x) !in s'.tracker.completed && |s'.query| == |system|
    requires s'.query == s.query[q := s.query[q].(phase := s'.query[q].phase)]
    requires Reached(system[q], s.query[q].phase) == Levels(system[q].items)[x] < Reached(system[q], s'.query[q].phase)
    ensures OneLost(system, s', p, x)
  {
    OneMoreThrough(system, s, s', q, p, x);
    assert Reporters(system, s', p, x) == Reporters(system, s, p, x);
  }

  lemma OneMoreThrough<V>(system: seq<Query>, s: State<V>, s': State<V>, q: nat, p: int, x: int)
    requires |s.query| == |s'.query| == |system| && q in Holders(system, p, x) && x in Levels(system[q].items)
    requires s'.query == s.query[q := s'.query[q]]
    requires Ahead(system[q], s.query[q].phase, x) && !Ahead(system[q], s'.query[q].phase, x)
    ensures |Through(system, s', p, x)| == |Through(system, s, p, x)| + 1
  {
    assert q !in Through(system, s, p, x);
    assert Through(system, s', p, x) == Through(system, s, p, x) + {q};
  }

  lemma OtherContinues<V>(system: seq<Query>, s: State<V>, s': State<V>, q: nat, p: int, x: int)
    requires OneLost(system, s, p, x) && q < |system|
    requires ((p, x) in s'.tracker.completed ==> (p, x) in s.tracker.completed) && |s'.query| == |system|
    requires s'.query == s.query[q := s.query[q].(phase := s'.query[q].phase)]
    requires q in Holders(system, p, x) && Ahead(system[q], s.query[q].phase, x) ==>
      Ahead(system[q], s'.query[q].phase, x)
    ensures OneLost(system, s', p, x)
  {
    SameKeepsLost(system, s, s', p, x);
  }

  lemma ContinueKeepsLost<V>(system: seq<Query>, sem: (string, seq<V>) -> V, s: State<V>, q: nat, p: int, x: int)
    requires Plans(system) && OneLost(system, s, p, x) && Enabled(system, s, Continue(q))
    ensures OneLost(system, Next(system, sem, s, Continue(q)), p, x)
  {
    var s', b := Next(system, sem, s, Continue(q)), s.query[q].phase.batch;
    WaitHasLevel(system[q], b, p, x);
    assert Reached(system[q], s'.query[q].phase) == b + 1;
    if (p, x) in WaitIds(system[q], b) {
      HolderContinues(system, s, s', q, p, x);
    } else {
      OtherContinues(system, s, s', q, p, x);
    }
  }

  /** A batch is waited for with exactly the ids of its level. */
  lemma WaitHasLevel(query: Query, b: nat, p: int, x: int)
    requires WellOrdered(query.items) && b < |Batches(query.items)|
    ensures (p, x) in WaitIds(query, b) <==>
      PlanId(query) == p && x in Ids(query.items) && x in Levels(query.items) && Levels(query.items)[x] == b
  {
    var batch := Batches(query.items)[b];
    if (p, x) in WaitIds(query, b) {
      var i :| 0 <= i < |batch| && WaitIds(query, b)[i] == (p, x);
      BatchesAreLevels(query.items, batch[i]);
      assert batch[i] in Batches(query.items)[b];
    }
    if PlanId(query) == p && x in Ids(query.items) && x in Levels(query.items) && Levels(query.items)[x] == b {
      var k := ItemWithId(query.items, x);
      BatchesAreLevels(query.items, query.items[k]);
      assert query.items[k] in Batches(query.items)[b];
      var i :| 0 <= i < |batch| && batch[i] == query.items[k];
      assert WaitIds(query, b)[i] == (p, x);
    }
  }

  /** Only reports and successful waits matter. */
  lemma QuietKeepsLost<V>(system: seq<Query>, sem: (string, seq<V>) -> V, s: State<V>, e: Event, p: int, x: int)
    requires OneLost(system, s, p, x) && Enabled(system, s, e) && (e.Send? || e.StartWait? || e.GiveUp? || e.Execute?)
    ensures OneLost(system, Next(system, sem, s, e), p, x)
  {
    var s', q := Next(system, sem, s, e), e.q;
    assert s'.tracker == s.tracker && s'.query == s.query[q := s'.query[q]];
    assert s'.query[q].reported == s.query[q].reported;
    assert Reached(system[q], s'.query[q].phase) <= Reached(system[q], s.query[q].phase);
    assert s'.query[q].value.Keys <= Ids(system[q].items);
    QuietChange(system, s, s', q, p, x);
  }

  lemma QuietChange<V>(system: seq<Query>, s: State<V>, s': State<V>, q: nat, p: int, x: int)
    requires OneLost(system, s, p, x) && q < |system| && s'.tracker == s.tracker && |s'.query| == |system|
    requires s'.query == s.query[q := s'.query[q]] && s'.query[q].reported == s.query[q].reported
    requires Reached(system[q], s'.query[q].phase) <= Reached(system[q], s.query[q].phase)
    requires s'.query[q].value.Keys <= Ids(system[q].items)
    ensures OneLost(system, s', p, x)
  {
    SameKeepsLost(system, s, s', p, x);
  }

  lemma StepKeepsLost<V>(system: seq<Query>, sem: (string, seq<V>) -> V, s: State<V>, e: Event, p: int, x: int)
    requires Plans(system) && OneLost(system, s, p, x) && Enabled(system, s, e) && Fresh(s, e)
    ensures OneLost(system, Next(system, sem, s, e), p, x)
  {
    match e {
      case Shutdown => SameKeepsLost(system, s, Next(system, sem, s, e), p, x);
      case Continue(q) => ContinueKeepsLost(system, sem, s, q, p, x);
      case Report(q, id) => ReportKeepsLost(system, sem, s, q, id, p, x);
      case _ => QuietKeepsLost(system, sem, s, e, p, x);
    }
  }

  lemma {:induction false} RunKeepsLost<V>(system: seq<Query>, sem: (string, seq<V>) -> V, events: seq<Event>,
                                           more: seq<Event>, p: int, x: int)
    requires Plans(system) && Run(system, sem, events).Some? && OneLost(system, Run(system, sem, events).value, p, x)
    requires Run(system, sem, events + more).Some? && OnceFrom(system, sem, |events|, events + more)
    ensures OneLost(system, Run(system, sem, events + more).value, p, x)
  {
    if more == [] {
      assert events + more == events;
    } else {
      var before, e := more[..|more| - 1], more[|more| - 1];
      InitOfBoth(events, more);
      RunKeepsLost(system, sem, events, before, p, x);
      StepKeepsLost(system, sem, Run(system, sem, events + before).value, e, p, x);
    }
  }

  lemma InitOfBoth<T>(a: seq<T>, b: seq<T>)
    requires b != []
    ensures (a + b)[..|a + b| - 1] == a + b[..|b| - 1] && (a + b)[|a + b| - 1] == b[|b| - 1]
  {
  }

  /** If all queries finished, every one that holds the id has taken a completion of it. */
  lemma LostIsUnfinished<V>(system: seq<Query>, s: State<V>, p: int, x: int)
    requires Plans(system) && OneLost(system, s, p, x)
    ensures !AllFinished(s)
  {
    if AllFinished(s) {
      forall q | q in Holders(system, p, x) ensures q in Through(system, s, p, x) {
        var k := ItemWithId(system[q].items, x);
        BatchesAreLevels(system[q].items, system[q].items[k]);
      }
      CardinalityMonotone(Reporters(system, s, p, x), Through(system, s, p, x));
    }
  }

  /** Two queries that share an id report it one after the other: the tracker keeps one completion for both. */
  lemma LoseCompletion<V>(system: seq<Query>, sem: (string, seq<V>) -> V, q: nat, r: nat, x: int)
    returns (events: seq<Event>, s: State<V>)
    requires Plans(system) && q < |system| && r < |system| && q != r && PlanId(system[q]) == PlanId(system[r])
    requires x in Ids(system[q].items) && x in Ids(system[r].items)
    ensures At(system, sem, events, s) && OneLost(system, s, PlanId(system[q]), x)
  {
    var p := PlanId(system[q]);
    events, s := ReportAlone(system, sem, [], Init(system), r, x);
    events, s := ReportAlone(system, sem, events, s, q, x);
    forall o | 0 <= o < |system| ensures s.query[o].value.Keys <= Ids(system[o].items) {
      ValuesAreOfItems(system, sem, events, o);
    }
    assert Through(system, s, p, x) == {};
    assert {q, r} <= Reporters(system, s, p, x);
    CardinalityMonotone({q, r}, Reporters(system, s, p, x));
  }

  ghost predicate StuckUnfinished<V>(system: seq<Query>, sem: (string, seq<V>) -> V, events: seq<Event>) {
    && Regular(system, sem, 0, events) && Stuck(system, Run(system, sem, events).value)
    && !AllFinished(Run(system, sem, events).value)
  }

  /** From there no run in which each item is reported at most once finishes all queries. */
  lemma SharedNeverFinishes<V>(system: seq<Query>, sem: (string, seq<V>) -> V, q: nat, r: nat, x: int)
    returns (events: seq<Event>)
    requires Plans(system) && q < |system| && r < |system| && q != r && PlanId(system[q]) == PlanId(system[r])
    requires x in Ids(system[q].items) && x in Ids(system[r].items)
    ensures Regular(system, sem, 0, events) && !CanFinish(system, sem, events)
    ensures exists more :: StuckUnfinished(system, sem, events + more)
  {
    var p := PlanId(system[q]);
    var s;
    events, s := LoseCompletion(system, sem, q, r, x);
    forall more | Regular(system, sem, |events|, events + more)
      ensures !AllFinished(Run(system, sem, events + more).value)
    {
      RunKeepsLost(system, sem, events, more, p, x);
      LostIsUnfinished(system, Run(system, sem, events + more).value, p, x);
    }
    var more := ExtendToStuck(system, sem, 0, events);
    OnceLater(system, sem, |events|, events + more);
    assert StuckUnfinished(system, sem, events + more);
  }

  lemma {:induction false} OnceLater<V>(system: seq<Query>, sem: (string, seq<V>) -> V, n: nat, events: seq<Event>)
    requires Once(system, sem, events)
    ensures OnceFrom(system, sem, n, events)
    decreases |events|
  {
    if events != [] {
      OnceLater(system, sem, n, events[..|events| - 1]);
    }
  }

  // ---- Main result ----

  /**
    With one report per item: all queries can always still finish, and every run that cannot go on has finished
    them, if and only if no two of them share plan id and item id.
   */
  lemma LiveIffIdsApart<V>(system: seq<Query>, sem: (string, seq<V>) -> V)
    requires Plans(system)
    ensures Live(system, sem) <==> IdsApart(system)
    ensures AlwaysFinishes(system, sem) <==> IdsApart(system)
  {
    if IdsApart(system) {
      forall events | Regular(system, sem, 0, events) ensures CanFinish(system, sem, events) {
        ApartIsLive(system, sem, events);
      }
      forall events | Regular(system, sem, 0, events) && Stuck(system, Run(system, sem, events).value)
        ensures AllFinished(Run(system, sem, events).value)
      {
        StuckIsFinished(system, sem, events);
      }
    } else {
      var q, x :| 0 <= q < |system| && x in Ids(system[q].items) && !Own(system, q, x);
      var r :| 0 <= r < |system| && r != q && x in Ids(system[r].items) && PlanId(system[r]) == PlanId(system[q]);
      var events := SharedNeverFinishes(system, sem, q, r, x);
      var more :| StuckUnfinished(system, sem, events + more);
    }
  }

  /** The two queries that drew the same plan id can get stuck. */
  lemma CollidingPlanIdsGetStuck<V>(sem: (string, seq<V>) -> V)
    ensures !Live(COLLIDING, sem) && !AlwaysFinishes(COLLIDING, sem)
  {
    CollidingShare();
    LiveIffIdsApart(COLLIDING, sem);
  }
}
