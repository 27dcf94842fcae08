/**
  What executing work items computes. An operator is an arbitrary function of its payload and of its
  dependencies' values; running the parallel batches, in any order inside each batch, and running the
  sequential plan both give every item the value of recursive evaluation of the plan.
 */
module Evaluation {
  import opened PlanGraph
  import opened WorkItems
  import opened Translator

  // ---- Recursive evaluation of the plan ----

  ghost function Descendants(g: Plan, n: Ref): set<Ref> {
    set m | m in g && Reaches(g, n, m)
  }

  function NonNull(kids: seq<Option<Ref>>): seq<Ref> {
    if kids == [] then []
    else
      var last := kids[|kids| - 1];
      NonNull(kids[..|kids| - 1]) + if last.Some? then [last.value] else []
  }

  lemma {:induction false} NonNullIn(kids: seq<Option<Ref>>, c: Ref)
    ensures c in NonNull(kids) <==> Some(c) in kids
  {
    if kids != [] {
      NonNullIn(kids[..|kids| - 1], c);
      SplitLast(kids);
    }
  }

  /** The children of an acyclic node are acyclic and have fewer descendants. */
  lemma ChildrenAreSmaller(g: Plan, n: Ref, c: Ref)
    requires Closed(g) && n in g && AcyclicFrom(g, n) && c in NonNull(g[n].children)
    ensures c in g && AcyclicFrom(g, c) && Descendants(g, c) < Descendants(g, n)
  {
    NonNullIn(g[n].children, c);
    assert Edge(g, n, c);
    ReachesSelf(g, n);
    forall m: Ref | Reaches(g, c, m) ensures Reaches(g, n, m) {
      ReachesThrough(g, n, c, m);
    }
    assert n in Descendants(g, n) && n !in Descendants(g, c);
  }

  ghost function Eval<V>(g: Plan, sem: (string, seq<V>) -> V, n: Ref): V
    requires Closed(g) && n in g && AcyclicFrom(g, n)
    decreases Descendants(g, n)
  {
    var kids := NonNull(g[n].children);
    assert forall i :: 0 <= i < |kids| ==>
      kids[i] in g && AcyclicFrom(g, kids[i]) && Descendants(g, kids[i]) < Descendants(g, n) by {
      forall i | 0 <= i < |kids|
        ensures kids[i] in g && AcyclicFrom(g, kids[i]) && Descendants(g, kids[i]) < Descendants(g, n)
      {
        ChildrenAreSmaller(g, n, kids[i]);
      }
    }
    sem(g[n].op, seq(|kids|, i requires 0 <= i < |kids| => Eval(g, sem, kids[i])))
  }

  // ---- Executing work items ----

  ghost function Apply<V>(sem: (string, seq<V>) -> V, item: WorkItem, env: map<int, V>): V
    requires Ready(item, env.Keys)
  {
    sem(item.op, seq(|item.dependsOn|, i requires 0 <= i < |item.dependsOn| => env[item.dependsOn[i]]))
  }

  /** Executes the items one by one; there is no result if an item is started before a dependency is done. */
  ghost function Run<V>(sem: (string, seq<V>) -> V, items: seq<WorkItem>, env: map<int, V>): Option<map<int, V>> {
    if items == [] then Some(env)
    else if Ready(items[0], env.Keys) then
      Run(sem, items[1..], env[items[0].itemId := Apply(sem, items[0], env)])
    else None
  }

  /** Every item finds its dependencies done, by `done` or by an earlier item. */
  ghost predicate Startable(items: seq<WorkItem>, done: set<int>) {
    items != [] ==> Ready(items[0], done) && Startable(items[1..], done + {items[0].itemId})
  }

  // ---- The items of a plan compute what evaluating the plan computes ----

  /** The values done so far are those of recursive evaluation. */
  ghost predicate Agrees<V>(g: Plan, root: Ref, sem: (string, seq<V>) -> V, env: map<int, V>)
    requires Closed(g) && root in g && AcyclicFrom(g, root)
  {
    forall n: Ref :: Reaches(g, root, n) && n in g && g[n].nodeId in env ==>
      AcyclicFrom(g, n) && env[g[n].nodeId] == Eval(g, sem, n)
  }

  ghost predicate IsItemOf(g: Plan, root: Ref, item: WorkItem)
    requires ChildrenInPlan(g)
  {
    exists n: Ref :: Reaches(g, root, n) && n in g && item == WorkItemOf(g, n, item.planId)
  }

  lemma AcyclicBelow(g: Plan, root: Ref, n: Ref)
    requires AcyclicFrom(g, root) && Reaches(g, root, n)
    ensures AcyclicFrom(g, n)
  {
    forall a: Ref | Reaches(g, n, a) ensures Reaches(g, root, a) {
      ReachesTransitive(g, root, n, a);
    }
  }

  lemma {:induction false} ChildIdsAreIdsOfNonNull(g: Plan, kids: seq<Option<Ref>>)
    requires forall i :: 0 <= i < |kids| && kids[i].Some? ==> kids[i].value in g
    ensures |ChildIds(g, kids)| == |NonNull(kids)|
    ensures forall i :: 0 <= i < |NonNull(kids)| ==>
      NonNull(kids)[i] in g && ChildIds(g, kids)[i] == g[NonNull(kids)[i]].nodeId
  {
    if kids != [] {
      ChildIdsAreIdsOfNonNull(g, kids[..|kids| - 1]);
    }
  }

  /** An item whose dependencies have the values of the node's children gets the value of the node. */
  lemma ApplyIsEval<V>(g: Plan, sem: (string, seq<V>) -> V, env: map<int, V>, n: Ref, planId: int)
    requires Closed(g) && ChildrenInPlan(g) && n in g && AcyclicFrom(g, n)
    requires Ready(WorkItemOf(g, n, planId), env.Keys)
    requires forall c: Ref :: Edge(g, n, c) && c in g && AcyclicFrom(g, c) && g[c].nodeId in env ==>
      env[g[c].nodeId] == Eval(g, sem, c)
    ensures Apply(sem, WorkItemOf(g, n, planId), env) == Eval(g, sem, n)
  {
    var item, kids := WorkItemOf(g, n, planId), NonNull(g[n].children);
    ChildIdsAreIdsOfNonNull(g, g[n].children);
    forall i | 0 <= i < |kids|
      ensures kids[i] in g && AcyclicFrom(g, kids[i]) && env[item.dependsOn[i]] == Eval(g, sem, kids[i])
    {
      ChildrenAreSmaller(g, n, kids[i]);
      NonNullIn(g[n].children, kids[i]);
      assert Edge(g, n, kids[i]);
    }
    assert seq(|item.dependsOn|, i requires 0 <= i < |item.dependsOn| => env[item.dependsOn[i]])
        == seq(|kids|, i requires 0 <= i < |kids| => Eval(g, sem, kids[i]));
  }

  /** Executing an item of the plan whose dependencies are done keeps the values right. */
  lemma NextAgrees<V>(g: Plan, root: Ref, sem: (string, seq<V>) -> V, item: WorkItem, env: map<int, V>)
    requires Closed(g) && ChildrenInPlan(g) && root in g && AcyclicFrom(g, root) && DistinctIds(g)
    requires IsItemOf(g, root, item) && Ready(item, env.Keys) && Agrees(g, root, sem, env)
    ensures Agrees(g, root, sem, env[item.itemId := Apply(sem, item, env)])
  {
    var n: Ref :| Reaches(g, root, n) && n in g && item == WorkItemOf(g, n, item.planId);
    AcyclicBelow(g, root, n);
    forall c: Ref | Edge(g, n, c) ensures Reaches(g, root, c) {
      ReachesEdge(g, n, c);
      ReachesTransitive(g, root, n, c);
    }
    ApplyIsEval(g, sem, env, n, item.planId);
  }

  lemma {:induction false} RunAgrees<V>(g: Plan, root: Ref, sem: (string, seq<V>) -> V, items: seq<WorkItem>,
                                        env: map<int, V>)
    requires Closed(g) && ChildrenInPlan(g) && root in g && AcyclicFrom(g, root) && DistinctIds(g)
    requires forall i :: 0 <= i < |items| ==> IsItemOf(g, root, items[i])
    requires Startable(items, env.Keys) && Agrees(g, root, sem, env)
    ensures Run(sem, items, env).Some?
    ensures Run(sem, items, env).value.Keys == env.Keys + Ids(items)
    ensures Agrees(g, root, sem, Run(sem, items, env).value)
  {
    if items != [] {
      var item := items[0];
      NextAgrees(g, root, sem, item, env);
      var next := env[item.itemId := Apply(sem, item, env)];
      assert next.Keys == env.Keys + {item.itemId};
      RunAgrees(g, root, sem, items[1..], next);
      IdsOfTail(items);
    }
  }

  lemma IdsOfTail(items: seq<WorkItem>)
    requires items != []
    ensures Ids(items) == {items[0].itemId} + Ids(items[1..])
  {
    forall x | x in Ids(items) ensures x in {items[0].itemId} + Ids(items[1..]) {
      var i :| 0 <= i < |items| && items[i].itemId == x;
      if i > 0 { assert items[1..][i - 1].itemId == x; }
    }
    forall x | x in Ids(items[1..]) ensures x in Ids(items) {
      var i :| 0 <= i < |items[1..]| && items[1..][i].itemId == x;
      assert items[i + 1].itemId == x;
    }
  }

  // ---- Both executions start every item with its dependencies done ----

  lemma {:induction false} StartableConcat(a: seq<WorkItem>, b: seq<WorkItem>, done: set<int>)
    requires Startable(a, done) && Startable(b, done + Ids(a))
    ensures Startable(a + b, done)
  {
    if a == [] {
      assert a + b == b && done + Ids(a) == done;
    } else {
      IdsOfTail(a);
      assert done + Ids(a) == done + {a[0].itemId} + Ids(a[1..]);
      StartableConcat(a[1..], b, done + {a[0].itemId});
      assert (a + b)[1..] == a[1..] + b;
    }
  }

  lemma {:induction false} AllReadyStartable(items: seq<WorkItem>, done: set<int>)
    requires forall i :: 0 <= i < |items| ==> Ready(items[i], done)
    ensures Startable(items, done)
  {
    if items != [] {
      AllReadyStartable(items[1..], done + {items[0].itemId});
    }
  }

  lemma {:induction false} WellOrderedStartable(items: seq<WorkItem>)
    requires WellOrdered(items)
    ensures Startable(items, {})
  {
    if items != [] {
      var before, item := items[..|items| - 1], items[|items| - 1];
      WellOrderedPrefix(items);
      WellOrderedStartable(before);
      AllReadyStartable([item], Ids(before));
      assert {} + Ids(before) == Ids(before);
      StartableConcat(before, [item], {});
      SplitLast(items);
    }
  }

  /** `shuffled` has the items of every batch, in some order. */
  ghost predicate Shuffle(shuffled: seq<seq<WorkItem>>, batches: seq<seq<WorkItem>>) {
    && |shuffled| == |batches|
    && forall b :: 0 <= b < |batches| ==> multiset(shuffled[b]) == multiset(batches[b])
  }

  lemma SamePermutation<T>(a: seq<T>, b: seq<T>, x: T)
    requires multiset(a) == multiset(b)
    ensures x in a <==> x in b
  {
    assert x in a <==> x in multiset(a);
    assert x in b <==> x in multiset(b);
  }

  lemma SameIds(a: seq<WorkItem>, b: seq<WorkItem>)
    requires multiset(a) == multiset(b)
    ensures Ids(a) == Ids(b)
  {
    forall x | x in Ids(a) ensures x in Ids(b) {
      var i := ItemWithId(a, x);
      SamePermutation(a, b, a[i]);
    }
    forall x | x in Ids(b) ensures x in Ids(a) {
      var i := ItemWithId(b, x);
      SamePermutation(a, b, b[i]);
    }
  }

  lemma {:induction false} FlattenShuffle(shuffled: seq<seq<WorkItem>>, batches: seq<seq<WorkItem>>)
    requires Shuffle(shuffled, batches)
    ensures multiset(Flatten(shuffled)) == multiset(Flatten(batches))
  {
    if batches != [] {
      FlattenShuffle(shuffled[..|shuffled| - 1], batches[..|batches| - 1]);
    }
  }

  /** All items of a batch are ready once the batches before it are done. */
  lemma BatchIsReady(items: seq<WorkItem>, b: nat, item: WorkItem)
    requires WellOrdered(items) && b < |Batches(items)| && item in Batches(items)[b]
    ensures Ready(item, Ids(Flatten(Batches(items)[..b])))
  {
    forall d | d in item.dependsOn ensures d in Ids(Flatten(Batches(items)[..b])) {
      DependenciesInEarlierBatches(items, b, item, d);
      var a, dep :| 0 <= a < b && dep in Batches(items)[a] && dep.itemId == d;
      InFlatten(Batches(items)[..b], a, dep);
    }
  }

  lemma {:induction false} InFlatten(batches: seq<seq<WorkItem>>, a: nat, item: WorkItem)
    requires a < |batches| && item in batches[a]
    ensures item in Flatten(batches) && item.itemId in Ids(Flatten(batches))
  {
    if a < |batches| - 1 {
      InFlatten(batches[..|batches| - 1], a, item);
    }
    assert item in Flatten(batches[..|batches| - 1]) + batches[|batches| - 1];
    var i :| 0 <= i < |Flatten(batches)| && Flatten(batches)[i] == item;
  }

  lemma ShuffledBatchIsReady(items: seq<WorkItem>, shuffled: seq<seq<WorkItem>>, b: nat)
    requires WellOrdered(items) && Shuffle(shuffled, Batches(items)) && b < |shuffled|
    ensures Startable(shuffled[b], Ids(Flatten(shuffled[..b])))
  {
    var done, batch := Ids(Flatten(shuffled[..b])), shuffled[b];
    FlattenShuffle(shuffled[..b], Batches(items)[..b]);
    SameIds(Flatten(shuffled[..b]), Flatten(Batches(items)[..b]));
    forall i | 0 <= i < |batch| ensures Ready(batch[i], done) {
      SamePermutation(batch, Batches(items)[b], batch[i]);
      BatchIsReady(items, b, batch[i]);
    }
    AllReadyStartable(batch, done);
  }

  lemma StartableThen(a: seq<WorkItem>, b: seq<WorkItem>)
    requires Startable(a, {}) && Startable(b, Ids(a))
    ensures Startable(a + b, {})
  {
    assert {} + Ids(a) == Ids(a);
    StartableConcat(a, b, {});
  }

  lemma {:induction false} ShuffledBatchesStartable(items: seq<WorkItem>, shuffled: seq<seq<WorkItem>>, n: nat)
    requires WellOrdered(items) && Shuffle(shuffled, Batches(items)) && n <= |shuffled|
    ensures Startable(Flatten(shuffled[..n]), {})
  {
    if n > 0 {
      var m := n - 1;
      ShuffledBatchesStartable(items, shuffled, m);
      ShuffledBatchIsReady(items, shuffled, m);
      FlattenTake(shuffled, m);
      StartableThen(Flatten(shuffled[..m]), shuffled[m]);
    }
  }

  lemma ShuffleIsStartable(items: seq<WorkItem>, shuffled: seq<seq<WorkItem>>)
    requires WellOrdered(items) && Shuffle(shuffled, Batches(items))
    ensures Startable(Flatten(shuffled), {}) && multiset(Flatten(shuffled)) == multiset(items)
  {
    FlattenShuffle(shuffled, Batches(items));
    BatchesPartition(items);
    ShuffledBatchesStartable(items, shuffled, |shuffled|);
    assert shuffled[..|shuffled|] == shuffled;
  }

  // ---- Main result ----

  lemma LinearItemsOfPlan(g: Plan, root: Ref, planId: int, item: WorkItem)
    requires Closed(g) && ChildrenInPlan(g) && root in g && item in Linear(g, root, planId)
    ensures IsItemOf(g, root, item)
  {
    PostOrderIsReachable(g, root);
    var order := PostOrder(g, root);
    var i :| 0 <= i < |order| && Linear(g, root, planId)[i] == item;
    assert order[i] in order;
  }

  /** `env` holds the value of every reachable node under its id, and nothing else. */
  ghost predicate IsPlanResult<V>(g: Plan, root: Ref, sem: (string, seq<V>) -> V, env: map<int, V>)
    requires Closed(g) && root in g && AcyclicFrom(g, root)
  {
    && Agrees(g, root, sem, env)
    && env.Keys == set n | n in PostOrder(g, root) && n in g :: g[n].nodeId
  }

  lemma IdsOfLinear(g: Plan, root: Ref, planId: int)
    requires Closed(g) && root in g
    ensures Ids(Linear(g, root, planId)) == set n | n in PostOrder(g, root) && n in g :: g[n].nodeId
  {
    var linear, order := Linear(g, root, planId), PostOrder(g, root);
    var ids := set n | n in order && n in g :: g[n].nodeId;
    forall x | x in Ids(linear) ensures x in ids {
      var i := ItemWithId(linear, x);
      assert order[i] in order && order[i] in Elements(order);
    }
    forall x | x in ids ensures x in Ids(linear) {
      var i :| 0 <= i < |order| && order[i] in g && g[order[i]].nodeId == x;
      assert linear[i].itemId == x;
    }
  }

  lemma StartableGivesResult<V>(g: Plan, root: Ref, sem: (string, seq<V>) -> V, planId: int, items: seq<WorkItem>)
    requires Closed(g) && root in g && AcyclicFrom(g, root) && DistinctIds(g)
    requires multiset(items) == multiset(Linear(g, root, planId)) && Startable(items, {})
    ensures Run(sem, items, map[]).Some? && IsPlanResult(g, root, sem, Run(sem, items, map[]).value)
  {
    ClosedHoldsChildren(g);
    var linear := Linear(g, root, planId);
    forall i | 0 <= i < |items| ensures IsItemOf(g, root, items[i]) {
      SamePermutation(items, linear, items[i]);
      LinearItemsOfPlan(g, root, planId, items[i]);
    }
    var none: map<int, V> := map[];
    assert none.Keys == {};
    RunAgrees(g, root, sem, items, none);
    SameIds(items, linear);
    IdsOfLinear(g, root, planId);
  }

  lemma ResultIsUnique<V>(g: Plan, root: Ref, sem: (string, seq<V>) -> V, a: map<int, V>, b: map<int, V>)
    requires Closed(g) && root in g && AcyclicFrom(g, root)
    requires IsPlanResult(g, root, sem, a) && IsPlanResult(g, root, sem, b)
    ensures a == b
  {
    PostOrderIsReachable(g, root);
    forall id | id in a ensures id in b && a[id] == b[id] {
      var n :| n in PostOrder(g, root) && n in g && g[n].nodeId == id;
      assert Reaches(g, root, n);
    }
  }

  /**
    For every acyclic plan with distinct node ids and every operator semantics, the sequential query
    plan and the parallel batches, shuffled in any way inside each batch, both run to the end and give
    the same values: those of evaluating the plan recursively. (The two draw different plan ids.)
   */
  lemma BatchedEqualsSequential<V>(g: Plan, root: Ref, sem: (string, seq<V>) -> V,
                                   planId: int, planId': int, shuffled: seq<seq<WorkItem>>)
    requires Closed(g) && root in g && AcyclicFrom(g, root) && DistinctIds(g)
    requires Shuffle(shuffled, Batches(Linear(g, root, planId')))
    ensures Run(sem, Linear(g, root, planId), map[]).Some?
    ensures IsPlanResult(g, root, sem, Run(sem, Linear(g, root, planId), map[]).value)
    ensures Run(sem, Flatten(shuffled), map[]) == Run(sem, Linear(g, root, planId), map[])
  {
    var linear := Linear(g, root, planId);
    LinearIsWellOrdered(g, root, planId);
    LinearIsWellOrdered(g, root, planId');
    WellOrderedStartable(linear);
    StartableGivesResult(g, root, sem, planId, linear);
    ShuffleIsStartable(Linear(g, root, planId'), shuffled);
    StartableGivesResult(g, root, sem, planId', Flatten(shuffled));
    ResultIsUnique(g, root, sem, Run(sem, linear, map[]).value, Run(sem, Flatten(shuffled), map[]).value);
  }
}
