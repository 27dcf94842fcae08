/**
  Any number of plans dispatched at the same time. Each worker thread sends a batch item by item, waits on
  the completion tracker for the whole batch and goes on with the next; compute units execute what was
  sent, in any order, and report it. All interleavings are allowed.
 */
module Dispatcher {
  import opened PlanGraph
  import opened WorkItems
  import opened Translator
  import opened Evaluation
  import opened Sequences
  import Tracker = CompletionTracker

  /** One parallel query: its linear work items, sent as `Batches(items)`. */
  datatype Query = Query(items: seq<WorkItem>)

  /** The plan id the dispatcher waits for: that of the first item. */
  function PlanId(query: Query): int {
    if query.items == [] then 0 else query.items[0].planId
  }

  /** The plan id a compute unit answers with: that of the item it executed. */
  function ItemPlanId(items: seq<WorkItem>, id: int): int {
    if items == [] then 0
    else
      var last := items[|items| - 1];
      if last.itemId == id then last.planId else ItemPlanId(items[..|items| - 1], id)
  }

  ghost predicate OnePlanId(query: Query) {
    forall k :: 0 <= k < |query.items| ==> query.items[k].planId == PlanId(query)
  }

  /** Well-ordered items that carry one plan id. */
  ghost predicate IsPlan(query: Query) {
    WellOrdered(query.items) && OnePlanId(query)
  }

  datatype Phase = Sending(batch: nat, next: nat) | Waiting(batch: nat) | Finished | GaveUp

  /** `value` holds the result of every executed item, `reported` the ids marked completed so far. */
  datatype Progress<V> = Progress(phase: Phase, sent: set<int>, value: map<int, Option<V>>, reported: set<int>)

  datatype State<V> = State(tracker: Tracker.State, query: seq<Progress<V>>)

  datatype Event =
    | Send(q: nat)                // the thread of query q sends its next item
    | StartWait(q: nat)           // the batch is out; it enters waitNextCompletions
    | Continue(q: nat)            // the wait returned true
    | GiveUp(q: nat)              // the wait returned false
    | Execute(q: nat, k: nat)     // a compute unit executes the query's k-th item
    | Report(q: nat, id: int)     // TASK_FINISHED arrives and the item is marked completed
    | Shutdown                    // the tracker is stopped

  function Init<V>(system: seq<Query>): State<V> {
    State(Tracker.INITIAL, seq(|system|, _ => Progress(Sending(0, 0), {}, map[], {})))
  }

  function WaitIds(query: Query, b: nat): seq<Tracker.Id>
    requires b < |Batches(query.items)|
  {
    var batch := Batches(query.items)[b];
    seq(|batch|, i requires 0 <= i < |batch| => (PlanId(query), batch[i].itemId))
  }

  /** What executing an item yields: its operator applied to its dependencies' values, if all are there. */
  ghost function Compute<V>(sem: (string, seq<V>) -> V, item: WorkItem, value: map<int, Option<V>>): Option<V> {
    var env := map id | id in value && value[id].Some? :: value[id].value;
    if Ready(item, env.Keys) then Some(Apply(sem, item, env)) else None
  }

  ghost predicate Enabled<V>(system: seq<Query>, s: State<V>, e: Event)
    requires |s.query| == |system|
  {
    match e
    case Shutdown => true
    case Send(q) =>
      && q < |system| && s.query[q].phase.Sending?
      && var Sending(b, j) := s.query[q].phase;
         b < |Batches(system[q].items)| && j < |Batches(system[q].items)[b]|
    case StartWait(q) =>
      && q < |system| && s.query[q].phase.Sending?
      && var Sending(b, j) := s.query[q].phase;
         b < |Batches(system[q].items)| && j == |Batches(system[q].items)[b]|
    case Continue(q) =>
      && q < |system| && s.query[q].phase.Waiting?
      && var b := s.query[q].phase.batch;
         b < |Batches(system[q].items)| && Tracker.Enabled(s.tracker, Tracker.WaitTrue(WaitIds(system[q], b)))
    case GiveUp(q) =>
      && q < |system| && s.query[q].phase.Waiting?
      && var b := s.query[q].phase.batch;
         b < |Batches(system[q].items)| && Tracker.Enabled(s.tracker, Tracker.WaitFalse(WaitIds(system[q], b)))
    case Execute(q, k) =>
      && q < |system| && k < |system[q].items|
      && system[q].items[k].itemId in s.query[q].sent && system[q].items[k].itemId !in s.query[q].value
    case Report(q, id) => q < |system| && id in s.query[q].value
  }

  ghost function Next<V>(system: seq<Query>, sem: (string, seq<V>) -> V, s: State<V>, e: Event): State<V>
    requires |s.query| == |system| && Enabled(system, s, e)
  {
    match e
    case Shutdown => s.(tracker := Tracker.Next(s.tracker, Tracker.Stop))
    case Send(q) =>
      var p := s.query[q];
      var item := Batches(system[q].items)[p.phase.batch][p.phase.next];
      s.(query := s.query[q := p.(phase := Sending(p.phase.batch, p.phase.next + 1), sent := p.sent + {item.itemId})])
    case StartWait(q) =>
      var p := s.query[q];
      s.(query := s.query[q := p.(phase := Waiting(p.phase.batch))])
    case Continue(q) =>
      var p := s.query[q];
      var b := p.phase.batch;
      var phase := if b + 1 < |Batches(system[q].items)| then Sending(b + 1, 0) else Finished;
      State(Tracker.Next(s.tracker, Tracker.WaitTrue(WaitIds(system[q], b))), s.query[q := p.(phase := phase)])
    case GiveUp(q) => s.(query := s.query[q := s.query[q].(phase := GaveUp)])
    case Execute(q, k) =>
      var p, item := s.query[q], system[q].items[k];
      s.(query := s.query[q := p.(value := p.value[item.itemId := Compute(sem, item, p.value)])])
    case Report(q, id) =>
      State(Tracker.Next(s.tracker, Tracker.Mark((ItemPlanId(system[q].items, id), id))),
            s.query[q := s.query[q].(reported := s.query[q].reported + {id})])
  }

  /** The state after a run, if the run can happen. */
  ghost function Run<V>(system: seq<Query>, sem: (string, seq<V>) -> V, events: seq<Event>): (r: Option<State<V>>)
    ensures r.Some? ==> |r.value.query| == |system|
  {
    if events == [] then Some(Init(system))
    else
      var before := Run(system, sem, events[..|events| - 1]);
      var e := events[|events| - 1];
      if before.Some? && Enabled(system, before.value, e) then Some(Next(system, sem, before.value, e)) else None
  }

  /** A step that does not report an item a second time. */
  ghost predicate Fresh<V>(s: State<V>, e: Event) {
    e.Report? ==> e.q < |s.query| && e.id !in s.query[e.q].reported
  }

  /** From the `n`-th event on, the run reports no item a second time. */
  ghost predicate OnceFrom<V>(system: seq<Query>, sem: (string, seq<V>) -> V, n: nat, events: seq<Event>)
    decreases |events|
  {
    |events| <= n ||
    (var before := events[..|events| - 1];
     OnceFrom(system, sem, n, before)
     && Run(system, sem, before).Some? && Fresh(Run(system, sem, before).value, events[|events| - 1]))
  }

  /** The run reports no item a second time. */
  ghost predicate Once<V>(system: seq<Query>, sem: (string, seq<V>) -> V, events: seq<Event>) {
    OnceFrom(system, sem, 0, events)
  }

  // ---- Plan ids ----

  lemma {:induction false} AnswerHasPlanId(items: seq<WorkItem>, id: int, planId: int)
    requires id in Ids(items) && forall k :: 0 <= k < |items| ==> items[k].planId == planId
    ensures ItemPlanId(items, id) == planId
  {
    if items[|items| - 1].itemId != id {
      IdsOfPrefix(items);
      AnswerHasPlanId(items[..|items| - 1], id, planId);
    }
  }

  lemma NeedsSomething(item: WorkItem)
    requires item.dependsOn != []
    ensures !Ready(item, {})
  {
    var none: set<int> := {};
    assert item.dependsOn[0] !in none && !Ready(item, none);
  }

  /** The first item of the first batch is the first item of the list, so its plan id is the query's. */
  lemma FirstBatchStartsWithFirstItem(query: Query)
    requires WellOrdered(query.items) && query.items != []
    ensures var batches := Batches(query.items);
      |batches| > 0 && |batches[0]| > 0 && batches[0][0] == query.items[0] && batches[0][0].planId == PlanId(query)
  {
    var items := query.items;
    FirstHasLevelZero(items);
    BatchIsInListOrder(items, 0);
    FirstSelected(Batches(items)[0], items, PositionsAt(items, Levels(items), 0));
  }

  lemma FirstHasLevelZero(items: seq<WorkItem>)
    requires WellOrdered(items) && items != []
    ensures |Batches(items)| > 0 && items[0].itemId in Levels(items) && Levels(items)[items[0].itemId] == 0
  {
    assert Ready(items[0], Ids(items[..0])) && Ids(items[..0]) == {};
    if items[0].dependsOn != [] {
      NeedsSomething(items[0]);
    }
    LevelsAreTightBatching(items);
    LevelsDomain(items);
    assert items[0].itemId in Ids(items);
  }

  /** The items of a plan carry the plan's id. */
  lemma LinearIsPlan(g: Plan, root: Ref, planId: int)
    requires Closed(g) && root in g && DistinctIds(g) && AcyclicFrom(g, root)
    ensures IsPlan(Query(Linear(g, root, planId))) && PlanId(Query(Linear(g, root, planId))) == planId
  {
    LinearIsWellOrdered(g, root, planId);
    PostOrderIsReachable(g, root);
    forall k | 0 <= k < |Linear(g, root, planId)| ensures Linear(g, root, planId)[k].planId == planId {
      LinearItem(g, root, planId, k);
    }
  }

  // ---- What every run keeps ----

  /** No other query has both the plan id of query `q` and an item `id`. */
  ghost predicate Own(system: seq<Query>, q: nat, id: int)
    requires q < |system|
  {
    forall r :: 0 <= r < |system| && r != q && id in Ids(system[r].items) ==> PlanId(system[r]) != PlanId(system[q])
  }

  /** No item that others depend on is shared with another query; distinct plan ids are enough. */
  ghost predicate DependenciesApart(system: seq<Query>) {
    forall q, k, id :: 0 <= q < |system| && 0 <= k < |system[q].items| && id in system[q].items[k].dependsOn ==>
      Own(system, q, id)
  }

  /** The batch a query has reached: all earlier batches are through. */
  function Reached(query: Query, phase: Phase): nat {
    match phase
    case Sending(b, _) => b
    case Waiting(b) => b
    case Finished => |Batches(query.items)|
    case GaveUp => 0
  }

  /** All items of the batches before `upTo` are reported, leaving aside shared ids. */
  ghost predicate EarlierReported(system: seq<Query>, q: nat, upTo: nat, reported: set<int>)
    requires q < |system|
  {
    var batches := Batches(system[q].items);
    forall b, item ::
      0 <= b < upTo && b < |batches| && item in batches[b] && Own(system, q, item.itemId) ==> item.itemId in reported
  }

  ghost predicate SentReady(items: seq<WorkItem>, sent: set<int>, reported: set<int>) {
    forall k :: 0 <= k < |items| && items[k].itemId in sent ==> Ready(items[k], reported)
  }

  ghost predicate QueryOk<V>(system: seq<Query>, q: nat, p: Progress<V>)
    requires q < |system|
  {
    && p.sent <= Ids(system[q].items) && p.value.Keys <= p.sent && p.reported <= p.value.Keys
    && EarlierReported(system, q, Reached(system[q], p.phase), p.reported)
    && SentReady(system[q].items, p.sent, p.reported)
  }

  ghost predicate ValuesOk<V>(query: Query, sem: (string, seq<V>) -> V, p: Progress<V>) {
    forall k :: 0 <= k < |query.items| && query.items[k].itemId in p.value ==>
      p.value[query.items[k].itemId].Some? && p.value[query.items[k].itemId] == Compute(sem, query.items[k], p.value)
  }

  /** The tracker holds no completion of a query's item that the query's item did not earn. */
  ghost predicate TrackerOk<V>(system: seq<Query>, s: State<V>)
    requires |s.query| == |system|
  {
    forall q, id :: 0 <= q < |system| && id in Ids(system[q].items) && Own(system, q, id) ==>
      (PlanId(system[q]), id) in s.tracker.completed ==>
      id in s.query[q].reported
  }

  ghost predicate Invariant<V>(system: seq<Query>, sem: (string, seq<V>) -> V, s: State<V>) {
    && |s.query| == |system|
    && TrackerOk(system, s)
    && forall q :: 0 <= q < |system| ==> QueryOk(system, q, s.query[q]) && ValuesOk(system[q], sem, s.query[q])
  }

  ghost predicate GoodSystem(system: seq<Query>) {
    DependenciesApart(system) && forall q :: 0 <= q < |system| ==> IsPlan(system[q])
  }

  /** The item a thread is about to send has had all its dependencies marked completed. */
  lemma NextItemIsReady<V>(system: seq<Query>, q: nat, p: Progress<V>, item: WorkItem)
    requires GoodSystem(system) && q < |system| && QueryOk(system, q, p) && p.phase.Sending?
    requires p.phase.batch < |Batches(system[q].items)| && item in Batches(system[q].items)[p.phase.batch]
    ensures Ready(item, p.reported) && item.itemId in Ids(system[q].items)
  {
    var items, b := system[q].items, p.phase.batch;
    BatchesAreLevels(items, item);
    var k :| 0 <= k < |items| && items[k] == item;
    forall i | 0 <= i < |item.dependsOn| ensures item.dependsOn[i] in p.reported {
      DependenciesInEarlierBatches(items, b, item, item.dependsOn[i]);
      var a, dep :| 0 <= a < b && dep in Batches(items)[a] && dep.itemId == item.dependsOn[i];
      assert item.dependsOn[i] in items[k].dependsOn && Own(system, q, dep.itemId);
    }
  }

  lemma SendKeepsQuery<V>(system: seq<Query>, q: nat, p: Progress<V>, item: WorkItem)
    requires GoodSystem(system) && q < |system| && QueryOk(system, q, p) && p.phase.Sending?
    requires p.phase.batch < |Batches(system[q].items)| && item in Batches(system[q].items)[p.phase.batch]
    ensures QueryOk(system, q, p.(phase := Sending(p.phase.batch, p.phase.next + 1), sent := p.sent + {item.itemId}))
  {
    var items := system[q].items;
    NextItemIsReady(system, q, p, item);
    BatchesAreLevels(items, item);
    var k :| 0 <= k < |items| && items[k] == item;
    forall j | 0 <= j < |items| && items[j].itemId == item.itemId ensures items[j] == item {
      assert j == k;
    }
  }

  lemma ContinueKeepsQuery<V>(system: seq<Query>, s: State<V>, q: nat)
    requires |s.query| == |system| && q < |system| && TrackerOk(system, s) && QueryOk(system, q, s.query[q])
    requires WellOrdered(system[q].items) && Enabled(system, s, Continue(q))
    ensures EarlierReported(system, q, s.query[q].phase.batch + 1, s.query[q].reported)
  {
    var query, p := system[q], s.query[q];
    var b := p.phase.batch;
    var batch := Batches(query.items)[b];
    forall item | item in batch && Own(system, q, item.itemId) ensures item.itemId in p.reported {
      WaitedFor(query, b, item);
    }
    OneMoreReported(system, q, b, p.reported);
  }

  lemma OneMoreReported(system: seq<Query>, q: nat, b: nat, reported: set<int>)
    requires q < |system| && b < |Batches(system[q].items)| && EarlierReported(system, q, b, reported)
    requires forall item :: item in Batches(system[q].items)[b] && Own(system, q, item.itemId) ==>
      item.itemId in reported
    ensures EarlierReported(system, q, b + 1, reported)
  {
  }

  /** A wait for a batch names all its items. */
  lemma WaitedFor(query: Query, b: nat, item: WorkItem)
    requires WellOrdered(query.items) && b < |Batches(query.items)| && item in Batches(query.items)[b]
    ensures (PlanId(query), item.itemId) in WaitIds(query, b) && item.itemId in Ids(query.items)
  {
    var batch := Batches(query.items)[b];
    var i :| 0 <= i < |batch| && batch[i] == item;
    assert WaitIds(query, b)[i] == (PlanId(query), item.itemId);
    BatchesAreLevels(query.items, item);
  }

  /** A query that only changed its phase to a batch all earlier ones of which are reported. */
  lemma PhaseKeepsInvariant<V>(system: seq<Query>, sem: (string, seq<V>) -> V, s: State<V>, q: nat, phase: Phase,
                               tracker: Tracker.State)
    requires Invariant(system, sem, s) && q < |system| && tracker.completed <= s.tracker.completed
    requires EarlierReported(system, q, Reached(system[q], phase), s.query[q].reported)
    ensures Invariant(system, sem, State(tracker, s.query[q := s.query[q].(phase := phase)]))
  {
    var p := s.query[q].(phase := phase);
    assert QueryOk(system, q, p) && ValuesOk(system[q], sem, p);
    UpdateKeepsInvariant(system, sem, s, q, p, tracker);
  }

  lemma ComputeIsStable<V>(sem: (string, seq<V>) -> V, item: WorkItem, value: map<int, Option<V>>, id: int,
                           v: Option<V>)
    requires id !in value && Ready(item, value.Keys)
    ensures Compute(sem, item, value[id := v]) == Compute(sem, item, value)
  {
    var env := map x | x in value && value[x].Some? :: value[x].value;
    var value' := value[id := v];
    var env' := map x | x in value' && value'[x].Some? :: value'[x].value;
    forall i | 0 <= i < |item.dependsOn|
      ensures item.dependsOn[i] in env <==> item.dependsOn[i] in env'
      ensures item.dependsOn[i] in env ==> env[item.dependsOn[i]] == env'[item.dependsOn[i]]
    {
    }
    if Ready(item, env.Keys) {
      assert seq(|item.dependsOn|, i requires 0 <= i < |item.dependsOn| => env[item.dependsOn[i]])
          == seq(|item.dependsOn|, i requires 0 <= i < |item.dependsOn| => env'[item.dependsOn[i]]);
    }
  }

  lemma ExecuteKeepsValues<V>(system: seq<Query>, q: nat, sem: (string, seq<V>) -> V, p: Progress<V>, k: nat)
    requires q < |system| && QueryOk(system, q, p) && ValuesOk(system[q], sem, p)
    requires DistinctItems(system[q].items) && k < |system[q].items|
    requires system[q].items[k].itemId in p.sent && system[q].items[k].itemId !in p.value
    ensures var item := system[q].items[k];
      ValuesOk(system[q], sem, p.(value := p.value[item.itemId := Compute(sem, item, p.value)]))
  {
    var query := system[q];
    var item := query.items[k];
    var v := Compute(sem, item, p.value);
    var value' := p.value[item.itemId := v];
    var env := map x | x in p.value && p.value[x].Some? :: p.value[x].value;
    forall i | 0 <= i < |item.dependsOn| ensures item.dependsOn[i] in env {
      assert Ready(item, p.reported);
      var d := item.dependsOn[i];
      var j := ItemWithId(query.items, d);
    }
    forall j | 0 <= j < |query.items| && query.items[j].itemId in value'
      ensures value'[query.items[j].itemId].Some?
      ensures value'[query.items[j].itemId] == Compute(sem, query.items[j], value')
    {
      assert Ready(query.items[j], p.reported);
      ComputeIsStable(sem, query.items[j], p.value, item.itemId, v);
    }
  }

  /** Changing one query, and the tracker only by completions that query earned, keeps the invariant. */
  lemma UpdateKeepsInvariant<V>(system: seq<Query>, sem: (string, seq<V>) -> V, s: State<V>, q: nat,
                                p: Progress<V>, tracker: Tracker.State)
    requires Invariant(system, sem, s) && q < |system|
    requires QueryOk(system, q, p) && ValuesOk(system[q], sem, p) && s.query[q].reported <= p.reported
    requires forall id :: id in tracker.completed && id !in s.tracker.completed ==>
      id.0 == PlanId(system[q]) && id.1 in p.reported
    ensures Invariant(system, sem, State(tracker, s.query[q := p]))
  {
    assert p.reported <= Ids(system[q].items);
  }

  lemma SendKeepsInvariant<V>(system: seq<Query>, sem: (string, seq<V>) -> V, s: State<V>, q: nat)
    requires GoodSystem(system) && Invariant(system, sem, s) && Enabled(system, s, Send(q))
    ensures Invariant(system, sem, Next(system, sem, s, Send(q)))
  {
    var item, p' := AfterSend(system, sem, s, q);
    SendKeepsQuery(system, q, s.query[q], item);
    UpdateKeepsInvariant(system, sem, s, q, p', s.tracker);
  }

  lemma AfterSend<V>(system: seq<Query>, sem: (string, seq<V>) -> V, s: State<V>, q: nat)
    returns (item: WorkItem, p': Progress<V>)
    requires |s.query| == |system| && Enabled(system, s, Send(q))
    ensures Next(system, sem, s, Send(q)) == State(s.tracker, s.query[q := p'])
    ensures var p := s.query[q];
      && item in Batches(system[q].items)[p.phase.batch]
      && p' == p.(phase := Sending(p.phase.batch, p.phase.next + 1), sent := p.sent + {item.itemId})
  {
    var p := s.query[q];
    item := Batches(system[q].items)[p.phase.batch][p.phase.next];
    p' := p.(phase := Sending(p.phase.batch, p.phase.next + 1), sent := p.sent + {item.itemId});
  }

  lemma WaitKeepsInvariant<V>(system: seq<Query>, sem: (string, seq<V>) -> V, s: State<V>, e: Event)
    requires GoodSystem(system) && Invariant(system, sem, s) && Enabled(system, s, e)
    requires e.StartWait? || e.GiveUp?
    ensures Invariant(system, sem, Next(system, sem, s, e))
  {
    var p := s.query[e.q];
    PhaseKeepsInvariant(system, sem, s, e.q, if e.StartWait? then Waiting(p.phase.batch) else GaveUp, s.tracker);
  }

  lemma ContinueKeepsInvariant<V>(system: seq<Query>, sem: (string, seq<V>) -> V, s: State<V>, q: nat)
    requires GoodSystem(system) && Invariant(system, sem, s) && Enabled(system, s, Continue(q))
    ensures Invariant(system, sem, Next(system, sem, s, Continue(q)))
  {
    var s' := Next(system, sem, s, Continue(q));
    ContinueKeepsQuery(system, s, q);
    PhaseKeepsInvariant(system, sem, s, q, s'.query[q].phase, s'.tracker);
  }

  lemma ExecuteKeepsInvariant<V>(system: seq<Query>, sem: (string, seq<V>) -> V, s: State<V>, q: nat, k: nat)
    requires GoodSystem(system) && Invariant(system, sem, s) && Enabled(system, s, Execute(q, k))
    ensures Invariant(system, sem, Next(system, sem, s, Execute(q, k)))
  {
    var s' := Next(system, sem, s, Execute(q, k));
    ExecuteKeepsValues(system, q, sem, s.query[q], k);
    assert QueryOk(system, q, s'.query[q]);
    UpdateKeepsInvariant(system, sem, s, q, s'.query[q], s.tracker);
  }

  lemma ReadyGrows(item: WorkItem, done: set<int>, more: set<int>)
    requires Ready(item, done) && done <= more
    ensures Ready(item, more)
  {
  }

  lemma ReportKeepsInvariant<V>(system: seq<Query>, sem: (string, seq<V>) -> V, s: State<V>, q: nat, id: int)
    requires GoodSystem(system) && Invariant(system, sem, s) && Enabled(system, s, Report(q, id))
    ensures Invariant(system, sem, Next(system, sem, s, Report(q, id)))
  {
    var s' := Next(system, sem, s, Report(q, id));
    var query, p' := system[q], s'.query[q];
    forall k | 0 <= k < |query.items| && query.items[k].itemId in p'.sent ensures Ready(query.items[k], p'.reported) {
      ReadyGrows(query.items[k], s.query[q].reported, p'.reported);
    }
    assert QueryOk(system, q, p');
    AnswerHasPlanId(query.items, id, PlanId(query));
    UpdateKeepsInvariant(system, sem, s, q, p', s'.tracker);
  }

  lemma StepKeepsInvariant<V>(system: seq<Query>, sem: (string, seq<V>) -> V, s: State<V>, e: Event)
    requires GoodSystem(system) && Invariant(system, sem, s) && Enabled(system, s, e)
    ensures Invariant(system, sem, Next(system, sem, s, e))
  {
    match e {
      case Shutdown =>
      case Send(q) => SendKeepsInvariant(system, sem, s, q);
      case StartWait(_) => WaitKeepsInvariant(system, sem, s, e);
      case Continue(q) => ContinueKeepsInvariant(system, sem, s, q);
      case GiveUp(_) => WaitKeepsInvariant(system, sem, s, e);
      case Execute(q, k) => ExecuteKeepsInvariant(system, sem, s, q, k);
      case Report(q, id) => ReportKeepsInvariant(system, sem, s, q, id);
    }
  }

  lemma {:induction false} RunKeepsInvariant<V>(system: seq<Query>, sem: (string, seq<V>) -> V, events: seq<Event>)
    requires GoodSystem(system) && Run(system, sem, events).Some?
    ensures Invariant(system, sem, Run(system, sem, events).value)
  {
    if events != [] {
      var before := events[..|events| - 1];
      RunKeepsInvariant(system, sem, before);
      StepKeepsInvariant(system, sem, Run(system, sem, before).value, events[|events| - 1]);
    }
  }

  // ---- Main results ----

  /**
    In every run, whatever the interleaving of sends, waits, executions, reports and shutdown, an item is
    sent only after all its dependencies have been executed and marked completed.
   */
  lemma NeverSentTooEarly<V>(system: seq<Query>, sem: (string, seq<V>) -> V, events: seq<Event>, q: nat)
    requires GoodSystem(system) && Run(system, sem, events).Some?
    requires Enabled(system, Run(system, sem, events).value, Send(q))
    ensures var p := Run(system, sem, events).value.query[q];
      var item := Batches(system[q].items)[p.phase.batch][p.phase.next];
      Ready(item, p.reported) && p.reported <= p.value.Keys
  {
    RunKeepsInvariant(system, sem, events);
    var p := Run(system, sem, events).value.query[q];
    NextItemIsReady(system, q, p, Batches(system[q].items)[p.phase.batch][p.phase.next]);
  }

  /** Query `q` runs the items of plan `g`. */
  ghost predicate RunsPlan(query: Query, g: Plan, root: Ref) {
    && Closed(g) && root in g && DistinctIds(g) && AcyclicFrom(g, root)
    && query.items == Linear(g, root, PlanId(query))
  }

  lemma ItemOfNode(query: Query, g: Plan, root: Ref, n: Ref) returns (k: nat)
    requires RunsPlan(query, g, root) && Reaches(g, root, n)
    ensures ChildrenInPlan(g) && n in g && k < |query.items| && query.items[k] == WorkItemOf(g, n, PlanId(query))
  {
    ClosedHoldsChildren(g);
    PostOrderIsReachable(g, root);
    var order := PostOrder(g, root);
    k :| 0 <= k < |order| && order[k] == n;
    assert n in Elements(order);
  }

  /** Whatever has been executed has the value that evaluating the plan gives it. */
  lemma {:induction false} ValueIsEval<V>(system: seq<Query>, q: nat, sem: (string, seq<V>) -> V, p: Progress<V>,
                                          g: Plan, root: Ref, n: Ref)
    requires q < |system| && RunsPlan(system[q], g, root) && QueryOk(system, q, p) && ValuesOk(system[q], sem, p)
    requires Reaches(g, root, n) && n in g && AcyclicFrom(g, n) && g[n].nodeId in p.value
    ensures p.value[g[n].nodeId] == Some(Eval(g, sem, n))
    decreases Descendants(g, n)
  {
    var query := system[q];
    var k := ItemOfNode(query, g, root, n);
    var env := map id | id in p.value && p.value[id].Some? :: p.value[id].value;
    forall c: Ref | Edge(g, n, c) && c in g && AcyclicFrom(g, c) && g[c].nodeId in env
      ensures env[g[c].nodeId] == Eval(g, sem, c)
    {
      ReachesEdge(g, n, c);
      ReachesTransitive(g, root, n, c);
      NonNullIn(g[n].children, c);
      ChildrenAreSmaller(g, n, c);
      ValueIsEval(system, q, sem, p, g, root, c);
    }
    ApplyIsEval(g, sem, env, n, PlanId(query));
  }

  /**
    In every run of any number of concurrent queries, a query whose dispatcher has finished has computed
    exactly the values of evaluating its plan recursively, one for each of its nodes, apart from those
    whose ids another query with its plan id uses too.
   */
  lemma FinishedQueryHasResult<V>(system: seq<Query>, sem: (string, seq<V>) -> V, events: seq<Event>,
                                  q: nat, g: Plan, root: Ref, n: Ref)
    requires GoodSystem(system) && Run(system, sem, events).Some? && q < |system| && RunsPlan(system[q], g, root)
    requires Run(system, sem, events).value.query[q].phase.Finished? && Reaches(g, root, n)
    requires n in g ==> Own(system, q, g[n].nodeId)
    ensures n in g && AcyclicFrom(g, n)
    ensures var value := Run(system, sem, events).value.query[q].value;
      g[n].nodeId in value && value[g[n].nodeId] == Some(Eval(g, sem, n))
  {
    var query, p := system[q], Run(system, sem, events).value.query[q];
    RunKeepsInvariant(system, sem, events);
    AcyclicBelow(g, root, n);
    var k := ItemOfNode(query, g, root, n);
    BatchesAreLevels(query.items, query.items[k]);
    var b := Levels(query.items)[query.items[k].itemId];
    assert query.items[k] in Batches(query.items)[b];
    ValueIsEval(system, q, sem, p, g, root, n);
  }

  // ---- Shutdown ----

  /** Once stopped, the tracker stays stopped. */
  lemma {:induction false} ShutdownStays<V>(system: seq<Query>, sem: (string, seq<V>) -> V, events: seq<Event>, i: nat)
    requires Run(system, sem, events).Some? && i < |events| && events[i] == Shutdown
    ensures Run(system, sem, events).value.tracker.stopped
  {
    var before := events[..|events| - 1];
    if i < |events| - 1 {
      ShutdownStays(system, sem, before, i);
    }
  }

  /** After a shutdown every waiting query can only give up, and one that did never sends again. */
  lemma ShutdownEndsWaits<V>(system: seq<Query>, sem: (string, seq<V>) -> V, events: seq<Event>, i: nat, q: nat)
    requires Run(system, sem, events).Some? && i < |events| && events[i] == Shutdown && q < |system|
    ensures var s := Run(system, sem, events).value;
      && !Enabled(system, s, Continue(q))
      && (s.query[q].phase.Waiting? && s.query[q].phase.batch < |Batches(system[q].items)| ==>
           Enabled(system, s, GiveUp(q)) && Next(system, sem, s, GiveUp(q)).query[q].phase == GaveUp)
      && (s.query[q].phase.GaveUp? ==> !Enabled(system, s, Send(q)) && !Enabled(system, s, StartWait(q)))
  {
    ShutdownStays(system, sem, events, i);
  }

  // ---- Plan ids that collide ----

  ghost predicate SendsReady<V>(system: seq<Query>, sem: (string, seq<V>) -> V, events: seq<Event>, q: nat) {
    var r := Run(system, sem, events);
    r.Some? && Enabled(system, r.value, Send(q)) ==>
      var p := r.value.query[q];
      Ready(Batches(system[q].items)[p.phase.batch][p.phase.next], p.reported)
  }

  /** No run sends an item before all its dependencies have been marked completed. */
  ghost predicate Safe<V>(system: seq<Query>, sem: (string, seq<V>) -> V) {
    forall events, q: nat :: SendsReady(system, sem, events, q)
  }

  /** The run leads to `s`, without a shutdown and without reporting an item twice. */
  ghost predicate At<V>(system: seq<Query>, sem: (string, seq<V>) -> V, events: seq<Event>, s: State<V>) {
    && Run(system, sem, events) == Some(s) && |s.query| == |system|
    && Once(system, sem, events) && !s.tracker.stopped
  }

  /** Only query `q` has moved, and it has neither executed nor reported item `x`. */
  ghost predicate MovedWithout<V>(s: State<V>, s': State<V>, q: nat, x: int) {
    && |s'.query| == |s.query| && q < |s.query| && s'.query == s.query[q := s'.query[q]]
    && x !in s'.query[q].value && x !in s'.query[q].reported
  }

  lemma Take<V>(system: seq<Query>, sem: (string, seq<V>) -> V, events: seq<Event>, s: State<V>, e: Event)
    returns (events': seq<Event>, s': State<V>)
    requires At(system, sem, events, s) && Enabled(system, s, e) && Fresh(s, e) && e != Shutdown
    ensures events' == events + [e] && s' == Next(system, sem, s, e) && At(system, sem, events', s')
  {
    events', s' := events + [e], Next(system, sem, s, e);
    assert events'[..|events|] == events;
  }

  lemma SendOne<V>(system: seq<Query>, sem: (string, seq<V>) -> V, events: seq<Event>, s: State<V>,
                   q: nat, batch: seq<WorkItem>, b: nat, j: nat) returns (events': seq<Event>, s': State<V>)
    requires At(system, sem, events, s) && q < |system| && b < |Batches(system[q].items)|
    requires batch == Batches(system[q].items)[b] && s.query[q].phase == Sending(b, j) && j < |batch|
    ensures At(system, sem, events', s') && s'.tracker == s.tracker
    ensures s'.query == s.query[q := s'.query[q]] && s'.query[q].phase == Sending(b, j + 1)
    ensures s'.query[q].value == s.query[q].value && s'.query[q].reported == s.query[q].reported
    ensures s.query[q].sent <= s'.query[q].sent && batch[j].itemId in s'.query[q].sent
  {
    events', s' := Take(system, sem, events, s, Send(q));
  }

  /** The thread of `q` sends the first `n` items of its batch. */
  lemma {:induction false} SendFirst<V>(system: seq<Query>, sem: (string, seq<V>) -> V, events: seq<Event>, s: State<V>,
                                        q: nat, batch: seq<WorkItem>, b: nat, n: nat)
    returns (events': seq<Event>, s': State<V>)
    requires At(system, sem, events, s) && q < |system| && b < |Batches(system[q].items)|
    requires batch == Batches(system[q].items)[b] && s.query[q].phase == Sending(b, 0) && n <= |batch|
    ensures At(system, sem, events', s') && s'.tracker == s.tracker
    ensures s'.query == s.query[q := s'.query[q]] && s'.query[q].phase == Sending(b, n)
    ensures s'.query[q].value == s.query[q].value && s'.query[q].reported == s.query[q].reported
    ensures forall i :: 0 <= i < n ==> batch[i].itemId in s'.query[q].sent
  {
    events', s' := events, s;
    if n > 0 {
      var mid;
      events', mid := SendFirst(system, sem, events, s, q, batch, b, n - 1);
      events', s' := SendOne(system, sem, events', mid, q, batch, b, n - 1);
      forall i | 0 <= i < n ensures batch[i].itemId in s'.query[q].sent {
        assert i < n - 1 ==> batch[i].itemId in mid.query[q].sent;
      }
    }
  }

  /** A compute unit executes an item that was sent, unless it has done so, and reports it. */
  lemma Perform<V>(system: seq<Query>, sem: (string, seq<V>) -> V, events: seq<Event>, s: State<V>, q: nat, k: nat)
    returns (events': seq<Event>, s': State<V>)
    requires At(system, sem, events, s) && q < |system| && k < |system[q].items| && OnePlanId(system[q])
    requires system[q].items[k].itemId in s.query[q].sent && system[q].items[k].itemId !in s.query[q].reported
    ensures At(system, sem, events', s')
    ensures s'.query[q].phase == s.query[q].phase && s'.query[q].sent == s.query[q].sent
    ensures s'.tracker.completed == s.tracker.completed + {(PlanId(system[q]), system[q].items[k].itemId)}
    ensures s'.query == s.query[q := s'.query[q]]
    ensures s'.query[q].value.Keys == s.query[q].value.Keys + {system[q].items[k].itemId}
    ensures s'.query[q].reported == s.query[q].reported + {system[q].items[k].itemId}
  {
    var id := system[q].items[k].itemId;
    AnswerHasPlanId(system[q].items, id, PlanId(system[q]));
    events', s' := events, s;
    if id !in s.query[q].value {
      events', s' := Take(system, sem, events', s', Execute(q, k));
    }
    events', s' := Take(system, sem, events', s', Report(q, id));
  }

  /** Items that were sent are performed in order, except `x`. */
  lemma {:induction false} PerformAll<V>(system: seq<Query>, sem: (string, seq<V>) -> V, events: seq<Event>,
                                         s: State<V>, q: nat, batch: seq<WorkItem>, x: int)
    returns (events': seq<Event>, s': State<V>)
    requires At(system, sem, events, s) && q < |system| && OnePlanId(system[q]) && MovedWithout(s, s, q, x)
    requires forall i :: 0 <= i < |batch| ==> batch[i] in system[q].items && batch[i].itemId in s.query[q].sent
    requires DistinctItems(batch) && Ids(batch) !! s.query[q].reported
    ensures At(system, sem, events', s') && MovedWithout(s, s', q, x)
    ensures s'.query[q].reported <= s.query[q].reported + Ids(batch)
    ensures s'.query[q].phase == s.query[q].phase && s'.query[q].sent == s.query[q].sent
    ensures s.tracker.completed <= s'.tracker.completed
    ensures forall i :: 0 <= i < |batch| && batch[i].itemId != x ==>
      (PlanId(system[q]), batch[i].itemId) in s'.tracker.completed
  {
    events', s' := events, s;
    if batch != [] {
      var front, item := batch[..|batch| - 1], batch[|batch| - 1];
      assert batch == front + [item];
      IdsOfPrefix(batch);
      assert item.itemId !in Ids(front);
      events', s' := PerformAll(system, sem, events, s, q, front, x);
      if item.itemId != x {
        var k :| 0 <= k < |system[q].items| && system[q].items[k] == item;
        events', s' := Perform(system, sem, events', s', q, k);
      }
    }
  }

  /** Everything reported is of the batches before `b`. */
  ghost predicate ReportedBelow(items: seq<WorkItem>, reported: set<int>, b: nat) {
    forall id :: id in reported ==> id in Levels(items) && Levels(items)[id] < b
  }

  lemma BatchIsUnreported(items: seq<WorkItem>, reported: set<int>, b: nat)
    requires WellOrdered(items) && b < |Batches(items)| && ReportedBelow(items, reported, b)
    ensures Ids(Batches(items)[b]) !! reported
    ensures ReportedBelow(items, reported + Ids(Batches(items)[b]), b + 1)
  {
    var batch := Batches(items)[b];
    forall id | id in Ids(batch) ensures id in Levels(items) && Levels(items)[id] == b {
      var k := ItemWithId(batch, id);
      BatchesAreLevels(items, batch[k]);
      assert batch[k] in Batches(items)[b];
    }
  }

  /** One round of the thread of `q`; if `x` is in the batch, the wait takes another query's report of it. */
  lemma PassBatch<V>(system: seq<Query>, sem: (string, seq<V>) -> V, events: seq<Event>, s: State<V>, q: nat, b: nat,
                     x: int)
    returns (events': seq<Event>, s': State<V>)
    requires At(system, sem, events, s) && q < |system| && IsPlan(system[q]) && x in Levels(system[q].items)
    requires b + 1 < |Batches(system[q].items)| && s.query[q].phase == Sending(b, 0) && MovedWithout(s, s, q, x)
    requires Levels(system[q].items)[x] == b ==> (PlanId(system[q]), x) in s.tracker.completed
    requires ReportedBelow(system[q].items, s.query[q].reported, b)
    ensures At(system, sem, events', s') && MovedWithout(s, s', q, x) && s'.query[q].phase == Sending(b + 1, 0)
    ensures ReportedBelow(system[q].items, s'.query[q].reported, b + 1)
    ensures (PlanId(system[q]), x) in s.tracker.completed && Levels(system[q].items)[x] != b ==>
      (PlanId(system[q]), x) in s'.tracker.completed
  {
    var items := system[q].items;
    var batch := Batches(items)[b];
    events', s' := SendFirst(system, sem, events, s, q, Batches(items)[b], b, |batch|);
    forall i | 0 <= i < |batch| ensures batch[i] in items && (batch[i].itemId == x ==> Levels(items)[x] == b) {
      BatchesAreLevels(items, batch[i]);
      assert batch[i] in Batches(items)[b];
    }
    BatchIsDistinct(items, b);
    BatchIsUnreported(items, s.query[q].reported, b);
    events', s' := PerformAll(system, sem, events', s', q, batch, x);
    events', s' := WaitOnce(system, sem, events', s', q, b);
    WaitLeaves(system[q], b, x);
  }

  lemma WaitLeaves(query: Query, b: nat, x: int)
    requires WellOrdered(query.items) && b < |Batches(query.items)| && x in Levels(query.items)
    ensures Levels(query.items)[x] != b ==> (PlanId(query), x) !in WaitIds(query, b)
  {
    var batch := Batches(query.items)[b];
    if (PlanId(query), x) in WaitIds(query, b) {
      var i :| 0 <= i < |batch| && WaitIds(query, b)[i] == (PlanId(query), x);
      BatchesAreLevels(query.items, batch[i]);
      assert batch[i] in Batches(query.items)[b];
    }
  }

  /** A batch that was sent and is completed is waited for; there is another one after it. */
  lemma WaitOnce<V>(system: seq<Query>, sem: (string, seq<V>) -> V, events: seq<Event>, s: State<V>, q: nat, b: nat)
    returns (events': seq<Event>, s': State<V>)
    requires At(system, sem, events, s) && q < |system| && b + 1 < |Batches(system[q].items)|
    requires s.query[q].phase == Sending(b, |Batches(system[q].items)[b]|)
    requires Tracker.AllCompleted(s.tracker, WaitIds(system[q], b))
    ensures At(system, sem, events', s')
    ensures s'.query == s.query[q := s.query[q].(phase := Sending(b + 1, 0))]
    ensures s'.tracker.completed == s.tracker.completed - set id | id in WaitIds(system[q], b)
  {
    events', s' := StartOnce(system, sem, events, s, q, b);
    events', s' := ContinueOnce(system, sem, events', s', q, b);
  }

  lemma StartOnce<V>(system: seq<Query>, sem: (string, seq<V>) -> V, events: seq<Event>, s: State<V>, q: nat, b: nat)
    returns (events': seq<Event>, s': State<V>)
    requires At(system, sem, events, s) && q < |system| && b < |Batches(system[q].items)|
    requires s.query[q].phase == Sending(b, |Batches(system[q].items)[b]|)
    ensures At(system, sem, events', s') && s' == s.(query := s.query[q := s.query[q].(phase := Waiting(b))])
  {
    events', s' := Take(system, sem, events, s, StartWait(q));
  }

  lemma ContinueOnce<V>(system: seq<Query>, sem: (string, seq<V>) -> V, events: seq<Event>, s: State<V>, q: nat, b: nat)
    returns (events': seq<Event>, s': State<V>)
    requires At(system, sem, events, s) && q < |system| && b + 1 < |Batches(system[q].items)|
    requires s.query[q].phase == Waiting(b) && Tracker.AllCompleted(s.tracker, WaitIds(system[q], b))
    ensures At(system, sem, events', s')
    ensures s'.query == s.query[q := s.query[q].(phase := Sending(b + 1, 0))]
    ensures s'.tracker.completed == s.tracker.completed - set id | id in WaitIds(system[q], b)
  {
    AfterContinue(system, sem, s, q, b);
    events', s' := Take(system, sem, events, s, Continue(q));
  }

  lemma AfterContinue<V>(system: seq<Query>, sem: (string, seq<V>) -> V, s: State<V>, q: nat, b: nat)
    requires |s.query| == |system| && q < |system| && b + 1 < |Batches(system[q].items)| && !s.tracker.stopped
    requires s.query[q].phase == Waiting(b) && Tracker.AllCompleted(s.tracker, WaitIds(system[q], b))
    ensures Enabled(system, s, Continue(q))
    ensures Next(system, sem, s, Continue(q))
      == State(Tracker.State(s.tracker.completed - set id | id in WaitIds(system[q], b), false),
               s.query[q := s.query[q].(phase := Sending(b + 1, 0))])
  {
  }

  lemma {:induction false} PassBatches<V>(system: seq<Query>, sem: (string, seq<V>) -> V, events: seq<Event>,
                                          s: State<V>, q: nat, b: nat, x: int)
    returns (events': seq<Event>, s': State<V>)
    requires At(system, sem, events, s) && q < |system| && IsPlan(system[q]) && x in Levels(system[q].items)
    requires b < |Batches(system[q].items)| && s.query[q].phase == Sending(0, 0) && MovedWithout(s, s, q, x)
    requires (PlanId(system[q]), x) in s.tracker.completed || b <= Levels(system[q].items)[x]
    requires s.query[q].reported == {}
    ensures At(system, sem, events', s') && MovedWithout(s, s', q, x) && s'.query[q].phase == Sending(b, 0)
    ensures ReportedBelow(system[q].items, s'.query[q].reported, b)
    ensures (PlanId(system[q]), x) in s.tracker.completed && b <= Levels(system[q].items)[x] ==>
      (PlanId(system[q]), x) in s'.tracker.completed
  {
    events', s' := events, s;
    if b > 0 {
      events', s' := PassBatches(system, sem, events, s, q, b - 1, x);
      events', s' := PassBatch(system, sem, events', s', q, b - 1, x);
    }
  }

  ghost predicate NotStarted<V>(p: Progress<V>) {
    p == Progress(Sending(0, 0), {}, map[], {})
  }

  /** A query that has not started runs up to the report of its item `x`, before it waits for it. */
  lemma ReportAlone<V>(system: seq<Query>, sem: (string, seq<V>) -> V, events: seq<Event>, s: State<V>, r: nat, x: int)
    returns (events': seq<Event>, s': State<V>)
    requires At(system, sem, events, s) && r < |system| && NotStarted(s.query[r])
    requires IsPlan(system[r]) && x in Ids(system[r].items)
    ensures At(system, sem, events', s') && s'.query == s.query[r := s'.query[r]]
    ensures (PlanId(system[r]), x) in s'.tracker.completed && x in s'.query[r].reported
    ensures x in Levels(system[r].items) && Reached(system[r], s'.query[r].phase) == Levels(system[r].items)[x]
  {
    var items := system[r].items;
    var k := ItemWithId(items, x);
    BatchesAreLevels(items, items[k]);
    var b := Levels(items)[x];
    var i :| 0 <= i < |Batches(items)[b]| && Batches(items)[b][i] == items[k];
    events', s' := PassBatches(system, sem, events, s, r, b, x);
    events', s' := SendFirst(system, sem, events', s', r, Batches(items)[b], b, |Batches(items)[b]|);
    events', s' := Perform(system, sem, events', s', r, k);
  }

  /**
    Plan ids are drawn at random. If another query has the same plan id and an item `x` on which the k-th item
    of `q` depends, some run sends that k-th item although `q` has neither executed nor reported `x`:
    a wait of `q` takes the other query's completion.
   */
  lemma SharedDependencySentTooEarly<V>(system: seq<Query>, sem: (string, seq<V>) -> V, q: nat, k: nat, x: int)
    returns (events: seq<Event>)
    requires forall r :: 0 <= r < |system| ==> IsPlan(system[r])
    requires q < |system| && k < |system[q].items| && x in system[q].items[k].dependsOn && !Own(system, q, x)
    ensures Once(system, sem, events)
    ensures Run(system, sem, events).Some? && Enabled(system, Run(system, sem, events).value, Send(q))
    ensures var p := Run(system, sem, events).value.query[q];
      && Batches(system[q].items)[p.phase.batch][p.phase.next] == system[q].items[k]
      && x !in p.value && x !in p.reported && !SendsReady(system, sem, events, q)
  {
    var r :| 0 <= r < |system| && r != q && x in Ids(system[r].items) && PlanId(system[r]) == PlanId(system[q]);
    var s;
    events, s := ReportAlone(system, sem, [], Init(system), r, x);
    var items := system[q].items;
    var item := items[k];
    BatchesAreLevels(items, item);
    DependencyHasLevel(items, k, x);
    var b := Levels(items)[item.itemId];
    var j :| 0 <= j < |Batches(items)[b]| && Batches(items)[b][j] == item;
    events, s := PassBatches(system, sem, events, s, q, b, x);
    events, s := SendFirst(system, sem, events, s, q, Batches(items)[b], b, j);
    assert !Ready(item, s.query[q].reported);
  }

  lemma DependencyHasLevel(items: seq<WorkItem>, k: nat, x: int)
    requires WellOrdered(items) && k < |items| && x in items[k].dependsOn
    ensures x in Levels(items)
  {
    LevelsDomain(items);
    assert Ready(items[k], Ids(items[..k]));
  }

  /** Exactly the systems in which no item that others depend on is shared with a query of the same plan id are safe. */
  lemma SafeIffDependenciesApart<V>(system: seq<Query>, sem: (string, seq<V>) -> V)
    requires forall q :: 0 <= q < |system| ==> IsPlan(system[q])
    ensures Safe(system, sem) <==> DependenciesApart(system)
  {
    if DependenciesApart(system) {
      forall events, q: nat ensures SendsReady(system, sem, events, q) {
        if Run(system, sem, events).Some? && Enabled(system, Run(system, sem, events).value, Send(q)) {
          NeverSentTooEarly(system, sem, events, q);
        }
      }
    } else {
      var q, k, x :| 0 <= q < |system| && 0 <= k < |system[q].items|
                     && x in system[q].items[k].dependsOn && !Own(system, q, x);
      var events := SharedDependencySentTooEarly(system, sem, q, k, x);
    }
  }

  lemma DistinctPlanIdsAreSafe<V>(system: seq<Query>, sem: (string, seq<V>) -> V)
    requires forall q :: 0 <= q < |system| ==> IsPlan(system[q])
    requires forall q, r :: 0 <= q < r < |system| ==> PlanId(system[q]) != PlanId(system[r])
    ensures Safe(system, sem)
  {
    SafeIffDependenciesApart(system, sem);
  }

  const FIRST := WorkItem(7, 1, [], "scan")
  const SECOND := WorkItem(7, 2, [1], "filter")

  /** Two queries that drew the same plan id; both have an item 1. */
  const COLLIDING: seq<Query> := [Query([FIRST]), Query([FIRST, SECOND])]

  lemma CollidingPlanIdsAreUnsafe<V>(sem: (string, seq<V>) -> V)
    ensures !Safe(COLLIDING, sem)
  {
    CollidingShare();
    SafeIffDependenciesApart(COLLIDING, sem);
  }

  lemma CollidingShare()
    ensures forall q :: 0 <= q < 2 ==> IsPlan(COLLIDING[q])
    ensures 1 in Ids(COLLIDING[0].items) && 1 in Ids(COLLIDING[1].items)
    ensures !Own(COLLIDING, 1, 1) && !DependenciesApart(COLLIDING)
  {
    var both := COLLIDING[1].items;
    assert both[..1][0].itemId == 1 && 1 in Ids(both[..1]);
    assert WellOrdered(both) && WellOrdered(COLLIDING[0].items);
    assert COLLIDING[0].items[0].itemId == 1 && 1 in Ids(COLLIDING[0].items);
    assert 1 in both[1].dependsOn && !Own(COLLIDING, 1, 1);
    assert both[0].itemId == 1;
  }
}
