/**
  The translator from a physical plan to work items: the explicit-stack walk, the linear list of work
  items, the grouping into parallel batches and the sequential query plan.
 */
module Translator {
  import opened PlanGraph
  import opened Sequences
  import opened WorkItems

  datatype Frame = Frame(node: Ref, nextChild: nat)

  datatype QueryPlan = QueryPlan(planId: int, items: seq<WorkItem>)

  // ---- What the walk still has to emit ----

  ghost predicate ValidFrame(g: Plan, f: Frame) {
    f.node in g && f.nextChild <= |g[f.node].children|
  }

  ghost predicate ValidStack(g: Plan, stack: seq<Frame>) {
    forall i :: 0 <= i < |stack| ==> ValidFrame(g, stack[i])
  }

  /** The frames form a path from the root: the child a frame took last is the frame above it. */
  ghost predicate RootPath(g: Plan, root: Ref, stack: seq<Frame>) {
    && (stack != [] ==> stack[0].node == root)
    && ValidStack(g, stack)
    && forall i :: 0 <= i < |stack| - 1 ==>
         && stack[i].nextChild > 0
         && g[stack[i].node].children[stack[i].nextChild - 1] == Some(stack[i + 1].node)
  }

  ghost function UnexploredSlots(g: Plan, stack: seq<Frame>): nat
    requires ValidStack(g, stack)
  {
    if stack == [] then 0
    else
      assert ValidFrame(g, stack[|stack| - 1]);
      var top := stack[|stack| - 1];
      UnexploredSlots(g, stack[..|stack| - 1]) + |g[top.node].children| - top.nextChild
  }

  ghost predicate ChildrenInPlan(g: Plan) {
    forall a: Ref, i :: a in g && 0 <= i < |g[a].children| && g[a].children[i].Some? ==>
      g[a].children[i].value in g
  }

  lemma ClosedHoldsChildren(g: Plan)
    requires Closed(g)
    ensures ChildrenInPlan(g)
  {
    forall a: Ref, i | a in g && 0 <= i < |g[a].children| && g[a].children[i].Some?
      ensures g[a].children[i].value in g
    {
      assert Edge(g, a, g[a].children[i].value);
    }
  }

  /** What emptying the stack emits: the rest of the top frame, its node, then the frames below. */
  ghost function Resume(g: Plan, stack: seq<Frame>, seen: set<Ref>): seq<Ref>
    requires Closed(g) && ValidStack(g, stack)
    decreases |stack|
  {
    if stack == [] then []
    else
      ClosedHoldsChildren(g);
      assert ValidFrame(g, stack[|stack| - 1]);
      var top := stack[|stack| - 1];
      var inner := VisitAll(g, g[top.node].children[top.nextChild..], seen);
      inner + [top.node] + Resume(g, stack[..|stack| - 1], seen + Elements(inner))
  }

  lemma ResumeTop(g: Plan, below: seq<Frame>, f: Frame, seen: set<Ref>)
    requires Closed(g) && ChildrenInPlan(g) && ValidStack(g, below) && ValidFrame(g, f)
    ensures var inner := VisitAll(g, g[f.node].children[f.nextChild..], seen);
      Resume(g, below + [f], seen) == inner + [f.node] + Resume(g, below, seen + Elements(inner))
  {
    assert (below + [f])[..|below|] == below;
  }

  lemma VisitAllEnters(g: Plan, kids: seq<Option<Ref>>, c: Ref, seen: set<Ref>)
    requires Closed(g) && ChildrenInPlan(g) && kids != [] && kids[0] == Some(c) && c in g && c !in seen
    requires forall x: Ref :: Some(x) in kids ==> x in g
    ensures var inner := VisitAll(g, g[c].children, seen + {c});
      var later := VisitAll(g, kids[1..], seen + {c} + Elements(inner));
      && VisitAll(g, kids, seen) == inner + [c] + later
      && seen + Elements(VisitAll(g, kids, seen)) == seen + {c} + Elements(inner) + Elements(later)
  {
    var inner := VisitAll(g, g[c].children, seen + {c});
    assert seen + Elements(inner + [c]) == seen + {c} + Elements(inner);
  }

  lemma ResumeTwo(g: Plan, below: seq<Frame>, f: Frame, c: Ref, seen: set<Ref>)
    requires Closed(g) && ChildrenInPlan(g) && ValidStack(g, below) && ValidFrame(g, f) && c in g
    ensures var inner := VisitAll(g, g[c].children, seen);
      var later := VisitAll(g, g[f.node].children[f.nextChild..], seen + Elements(inner));
      Resume(g, below + [f] + [Frame(c, 0)], seen)
      == inner + [c] + (later + [f.node] + Resume(g, below, seen + Elements(inner) + Elements(later)))
  {
    assert g[c].children[0..] == g[c].children;
    ResumeTop(g, below + [f], Frame(c, 0), seen);
    ResumeTop(g, below, f, seen + Elements(VisitAll(g, g[c].children, seen)));
  }

  /** Entering an unseen child emits exactly what the reference walk emits for it. */
  lemma ResumeEnters(g: Plan, below: seq<Frame>, f: Frame, c: Ref, seen: set<Ref>)
    requires Closed(g) && ChildrenInPlan(g) && ValidStack(g, below) && ValidFrame(g, f)
    requires f.nextChild < |g[f.node].children| && g[f.node].children[f.nextChild] == Some(c)
    requires c in g && c !in seen
    ensures Resume(g, below + [f], seen)
         == Resume(g, below + [Frame(f.node, f.nextChild + 1)] + [Frame(c, 0)], seen + {c})
  {
    var kids := g[f.node].children[f.nextChild..];
    assert kids[1..] == g[f.node].children[f.nextChild + 1..];
    VisitAllEnters(g, kids, c, seen);
    ResumeTop(g, below, f, seen);
    ResumeTwo(g, below, Frame(f.node, f.nextChild + 1), c, seen + {c});
    var inner := VisitAll(g, g[c].children, seen + {c});
    var later := VisitAll(g, kids[1..], seen + {c} + Elements(inner));
    Regroup(inner, [c], later, [f.node], Resume(g, below, seen + {c} + Elements(inner) + Elements(later)));
  }

  lemma Regroup<T>(a: seq<T>, b: seq<T>, c: seq<T>, d: seq<T>, e: seq<T>)
    ensures a + b + c + d + e == a + b + (c + d + e)
  {
  }

  lemma ResumeSkips(g: Plan, below: seq<Frame>, f: Frame, seen: set<Ref>)
    requires Closed(g) && ChildrenInPlan(g) && ValidStack(g, below) && ValidFrame(g, f)
    requires f.nextChild < |g[f.node].children|
    requires var c := g[f.node].children[f.nextChild]; c.None? || c.value in seen
    ensures Resume(g, below + [f], seen) == Resume(g, below + [Frame(f.node, f.nextChild + 1)], seen)
  {
    assert g[f.node].children[f.nextChild..][1..] == g[f.node].children[f.nextChild + 1..];
    ResumeTop(g, below, f, seen);
    ResumeTop(g, below, Frame(f.node, f.nextChild + 1), seen);
  }

  lemma ResumeLeaves(g: Plan, below: seq<Frame>, f: Frame, seen: set<Ref>)
    requires Closed(g) && ChildrenInPlan(g) && ValidStack(g, below) && ValidFrame(g, f)
    requires f.nextChild == |g[f.node].children|
    ensures Resume(g, below + [f], seen) == [f.node] + Resume(g, below, seen)
  {
    ResumeTop(g, below, f, seen);
    assert seen + Elements([]) == seen;
  }

  lemma ResumeStarts(g: Plan, root: Ref)
    requires Closed(g) && ChildrenInPlan(g) && root in g
    ensures Resume(g, [Frame(root, 0)], {root}) == PostOrder(g, root)
  {
    ResumeTop(g, [], Frame(root, 0), {root});
    assert [] + [Frame(root, 0)] == [Frame(root, 0)];
    assert g[root].children[0..] == g[root].children && {} + {root} == {root};
  }

  lemma SlotsOfTop(g: Plan, below: seq<Frame>, f: Frame)
    requires ValidStack(g, below) && ValidFrame(g, f)
    ensures UnexploredSlots(g, below + [f]) == UnexploredSlots(g, below) + |g[f.node].children| - f.nextChild
  {
    assert (below + [f])[..|below|] == below;
  }

  lemma RootPathTop(g: Plan, root: Ref, below: seq<Frame>, f: Frame)
    requires RootPath(g, root, below + [f])
    ensures RootPath(g, root, below) && ValidFrame(g, f)
    ensures f.nextChild < |g[f.node].children| ==> RootPath(g, root, below + [Frame(f.node, f.nextChild + 1)])
  {
    var stack := below + [f];
    assert ValidFrame(g, stack[|below|]);
    forall i | 0 <= i < |below| ensures ValidFrame(g, below[i]) && below[i] == stack[i] {
      assert ValidFrame(g, stack[i]);
    }
    if below != [] { assert below[0] == stack[0]; }
  }

  lemma RootPathEnters(g: Plan, root: Ref, below: seq<Frame>, f: Frame, c: Ref)
    requires RootPath(g, root, below + [f]) && c in g
    requires ValidFrame(g, f) && f.nextChild > 0 && g[f.node].children[f.nextChild - 1] == Some(c)
    ensures RootPath(g, root, below + [f] + [Frame(c, 0)])
  {
    var stack := below + [f];
    forall i | 0 <= i < |stack| ensures ValidFrame(g, stack[i]) && stack[i] == (stack + [Frame(c, 0)])[i] {
    }
  }

  /** The state of the walk: a root path, and what is emitted and still to come make up the whole. */
  ghost predicate Walking(g: Plan, root: Ref, stack: seq<Frame>, seen: set<Ref>, order: seq<Ref>, whole: seq<Ref>)
    requires Closed(g)
  {
    RootPath(g, root, stack) && seen <= g.Keys && order + Resume(g, stack, seen) == whole
  }

  lemma EnterKeepsWalk(g: Plan, root: Ref, below: seq<Frame>, f: Frame, c: Ref,
                       seen: set<Ref>, order: seq<Ref>, whole: seq<Ref>)
    requires Closed(g) && ChildrenInPlan(g) && root in g
    requires Walking(g, root, below + [f], seen, order, whole) && ValidFrame(g, f)
    requires f.nextChild < |g[f.node].children| && g[f.node].children[f.nextChild] == Some(c) && c !in seen
    ensures Walking(g, root, below + [Frame(f.node, f.nextChild + 1)] + [Frame(c, 0)], seen + {c}, order, whole)
  {
    EnterKeepsPath(g, root, below, f, c);
    ResumeEnters(g, below, f, c, seen);
  }

  lemma EnterKeepsPath(g: Plan, root: Ref, below: seq<Frame>, f: Frame, c: Ref)
    requires Closed(g) && ChildrenInPlan(g) && RootPath(g, root, below + [f]) && ValidFrame(g, f)
    requires f.nextChild < |g[f.node].children| && g[f.node].children[f.nextChild] == Some(c)
    ensures c in g && RootPath(g, root, below)
    ensures RootPath(g, root, below + [Frame(f.node, f.nextChild + 1)] + [Frame(c, 0)])
  {
    RootPathTop(g, root, below, f);
    RootPathEnters(g, root, below, Frame(f.node, f.nextChild + 1), c);
  }

  lemma FewerUnseen(g: Plan, seen: set<Ref>, c: Ref)
    requires c in g && c !in seen
    ensures |g.Keys - (seen + {c})| < |g.Keys - seen|
  {
    assert c in g.Keys - seen;
    CardinalityStrict(g.Keys - (seen + {c}), g.Keys - seen);
  }

  lemma SkipKeepsWalk(g: Plan, root: Ref, below: seq<Frame>, f: Frame,
                      seen: set<Ref>, order: seq<Ref>, whole: seq<Ref>)
    requires Closed(g) && ChildrenInPlan(g) && root in g
    requires Walking(g, root, below + [f], seen, order, whole) && ValidFrame(g, f)
    requires f.nextChild < |g[f.node].children|
    requires var c := g[f.node].children[f.nextChild]; c.None? || c.value in seen
    ensures Walking(g, root, below + [Frame(f.node, f.nextChild + 1)], seen, order, whole)
    ensures UnexploredSlots(g, below + [Frame(f.node, f.nextChild + 1)]) < UnexploredSlots(g, below + [f])
  {
    RootPathTop(g, root, below, f);
    ResumeSkips(g, below, f, seen);
    SlotsOfTop(g, below, f);
    SlotsOfTop(g, below, Frame(f.node, f.nextChild + 1));
  }

  lemma LeaveKeepsWalk(g: Plan, root: Ref, below: seq<Frame>, f: Frame,
                       seen: set<Ref>, order: seq<Ref>, whole: seq<Ref>)
    requires Closed(g) && ChildrenInPlan(g) && root in g
    requires Walking(g, root, below + [f], seen, order, whole) && ValidFrame(g, f)
    requires f.nextChild == |g[f.node].children|
    ensures Walking(g, root, below, seen, order + [f.node], whole)
    ensures UnexploredSlots(g, below) == UnexploredSlots(g, below + [f])
  {
    RootPathTop(g, root, below, f);
    ResumeLeaves(g, below, f, seen);
    SlotsOfTop(g, below, f);
  }

  /** The explicit-stack walk; it ends on every finite plan, cyclic ones included. */
  method WalkPlan(g: Plan, root: Ref) returns (order: seq<Ref>)
    requires Closed(g) && root in g
    ensures order == PostOrder(g, root)
  {
    ClosedHoldsChildren(g);
    var stack := [Frame(root, 0)];
    var seen := {root};
    order := [];
    ResumeStarts(g, root);
    ghost var whole := PostOrder(g, root);
    while stack != []
      invariant Walking(g, root, stack, seen, order, whole)
      decreases |g.Keys - seen|, UnexploredSlots(g, stack), |stack|
    {
      var below, f := stack[..|stack| - 1], stack[|stack| - 1];
      SplitLast(stack);
      if f.nextChild < |g[f.node].children| {
        var child := g[f.node].children[f.nextChild];
        var advanced := Frame(f.node, f.nextChild + 1);
        if child.Some? && child.value !in seen {
          EnterKeepsWalk(g, root, below, f, child.value, seen, order, whole);
          FewerUnseen(g, seen, child.value);
          stack := below + [advanced] + [Frame(child.value, 0)];
          seen := seen + {child.value};
        } else {
          SkipKeepsWalk(g, root, below, f, seen, order, whole);
          stack := below + [advanced];
        }
      } else {
        LeaveKeepsWalk(g, root, below, f, seen, order, whole);
        order := order + [f.node];
        stack := below;
      }
    }
  }

  // ---- Work items ----

  /** The ids of the non-null children, in child order. */
  function ChildIds(g: Plan, kids: seq<Option<Ref>>): seq<int>
    requires forall i :: 0 <= i < |kids| && kids[i].Some? ==> kids[i].value in g
  {
    if kids == [] then []
    else
      var last := kids[|kids| - 1];
      ChildIds(g, kids[..|kids| - 1]) + if last.Some? then [g[last.value].nodeId] else []
  }

  function WorkItemOf(g: Plan, n: Ref, planId: int): WorkItem
    requires n in g && forall i :: 0 <= i < |g[n].children| && g[n].children[i].Some? ==> g[n].children[i].value in g
  {
    WorkItem(planId, g[n].nodeId, ChildIds(g, g[n].children), g[n].op)
  }

  ghost function ItemsOf(g: Plan, order: seq<Ref>, planId: int): seq<WorkItem>
    requires ChildrenInPlan(g) && forall x :: x in order ==> x in g
  {
    seq(|order|, i requires 0 <= i < |order| => WorkItemOf(g, order[i], planId))
  }

  ghost function Linear(g: Plan, root: Ref, planId: int): seq<WorkItem>
    requires Closed(g) && root in g
  {
    ClosedHoldsChildren(g);
    assert forall x :: x in PostOrder(g, root) ==> x in Elements(PostOrder(g, root));
    ItemsOf(g, PostOrder(g, root), planId)
  }

  /** The k-th item carries the plan id and the k-th node's id and operator. */
  lemma LinearItem(g: Plan, root: Ref, planId: int, k: nat)
    requires Closed(g) && root in g && k < |Linear(g, root, planId)|
    ensures k < |PostOrder(g, root)| && PostOrder(g, root)[k] in g
    ensures var item, n := Linear(g, root, planId)[k], PostOrder(g, root)[k];
      item.planId == planId && item.itemId == g[n].nodeId && item.op == g[n].op
  {
    ClosedHoldsChildren(g);
    assert PostOrder(g, root)[k] in Elements(PostOrder(g, root));
  }

  ghost predicate CarryPlanId(items: seq<WorkItem>, planId: int) {
    forall k :: 0 <= k < |items| ==> items[k].planId == planId
  }

  lemma LinearCarriesPlanId(g: Plan, root: Ref, planId: int)
    requires Closed(g) && root in g
    ensures CarryPlanId(Linear(g, root, planId), planId)
    ensures forall b :: 0 <= b < |Batches(Linear(g, root, planId))| ==>
      CarryPlanId(Batches(Linear(g, root, planId))[b], planId)
  {
    var items := Linear(g, root, planId);
    forall k | 0 <= k < |items| ensures items[k].planId == planId {
      LinearItem(g, root, planId, k);
    }
    forall b | 0 <= b < |Batches(items)| ensures CarryPlanId(Batches(items)[b], planId) {
      BatchIsInListOrder(items, b);
      var pos :| Picks(Batches(items)[b], items, PositionsAt(items, Levels(items), b), pos);
    }
  }

  method AssignIds(g: Plan, order: seq<Ref>) returns (idOf: map<Ref, int>)
    requires forall x :: x in order ==> x in g
    ensures idOf.Keys == Elements(order)
    ensures forall n :: n in idOf ==> n in g && idOf[n] == g[n].nodeId
  {
    idOf := map[];
    for i := 0 to |order|
      invariant idOf.Keys == Elements(order[..i])
      invariant forall n :: n in idOf ==> n in g && idOf[n] == g[n].nodeId
    {
      assert order[..i + 1] == order[..i] + [order[i]];
      idOf := idOf[order[i] := g[order[i]].nodeId];
    }
    assert order[..|order|] == order;
  }

  method DependencyIds(g: Plan, n: Ref, idOf: map<Ref, int>) returns (deps: seq<int>)
    requires n in g && ChildrenInPlan(g)
    requires forall c: Ref :: Some(c) in g[n].children ==> c in idOf && idOf[c] == g[c].nodeId
    ensures deps == ChildIds(g, g[n].children)
  {
    var kids := g[n].children;
    deps := [];
    for j := 0 to |kids|
      invariant deps == ChildIds(g, kids[..j])
    {
      if kids[j].Some? {
        assert Some(kids[j].value) in kids;
        deps := deps + [idOf[kids[j].value]];
      }
      assert kids[..j + 1][..j] == kids[..j];
    }
    assert kids[..|kids|] == kids;
  }

  method CreateWorkItems(g: Plan, root: Ref, planId: int) returns (items: seq<WorkItem>)
    requires Closed(g) && root in g
    ensures items == Linear(g, root, planId) && CarryPlanId(items, planId)
  {
    ClosedHoldsChildren(g);
    var order := WalkPlan(g, root);
    assert forall x :: x in order <==> x in Elements(order);
    var idOf := AssignIds(g, order);
    items := [];
    for i := 0 to |order|
      invariant items == ItemsOf(g, order[..i], planId)
    {
      var n := order[i];
      forall c: Ref | Some(c) in g[n].children ensures c in order {
        VisitEmits(g, root, {});
        assert Edge(g, n, c);
      }
      var deps := DependencyIds(g, n, idOf);
      items := items + [WorkItem(planId, idOf[n], deps, g[n].op)];
      assert order[..i + 1] == order[..i] + [n];
    }
    assert order[..|order|] == order;
    LinearCarriesPlanId(g, root, planId);
  }

  method CreateQueryPlan(g: Plan, root: Ref, planId: int) returns (plan: QueryPlan)
    requires Closed(g) && root in g
    ensures plan == QueryPlan(planId, Linear(g, root, planId)) && CarryPlanId(plan.items, planId)
  {
    var workItems := CreateWorkItems(g, root, planId);
    var items: seq<WorkItem> := [];
    for i := 0 to |workItems|
      invariant items == workItems[..i]
    {
      items := items + [workItems[i]];
    }
    plan := QueryPlan(planId, items);
  }

  // ---- Parallel batches ----

  method LevelOf(level: map<int, nat>, deps: seq<int>) returns (curLevel: nat)
    ensures curLevel == LevelAbove(level, deps)
  {
    curLevel := 0;
    for j := 0 to |deps|
      invariant curLevel == LevelAbove(level, deps[..j])
    {
      assert deps[..j + 1][..j] == deps[..j];
      if deps[j] in level {
        curLevel := Max(curLevel, level[deps[j]] + 1);
      }
    }
    assert deps[..|deps|] == deps;
  }

  method ComputeLevels(linear: seq<WorkItem>) returns (level: map<int, nat>, maxLevel: nat)
    ensures level == Levels(linear) && maxLevel == TopLevel(linear)
  {
    level, maxLevel := map[], 0;
    for i := 0 to |linear|
      invariant level == Levels(linear[..i]) && maxLevel == TopLevel(linear[..i])
    {
      var curLevel := LevelOf(level, linear[i].dependsOn);
      assert linear[..i + 1][..i] == linear[..i];
      level := level[linear[i].itemId := curLevel];
      maxLevel := Max(maxLevel, curLevel);
    }
    assert linear[..|linear|] == linear;
  }

  method GroupByLevel(linear: seq<WorkItem>) returns (grouped: seq<seq<WorkItem>>)
    ensures grouped == Batches(linear)
  {
    if linear == [] {
      return [];
    }
    var level, maxLevel := ComputeLevels(linear);
    LevelsUpToTop(linear);
    LevelsDomain(linear);
    grouped := seq(maxLevel + 1, _ => []);
    for i := 0 to |linear|
      invariant |grouped| == maxLevel + 1
      invariant forall l :: 0 <= l <= maxLevel ==> grouped[l] == AtLevel(linear[..i], level, l)
    {
      assert linear[i].itemId in Ids(linear);
      assert linear[..i + 1][..i] == linear[..i];
      var l := level[linear[i].itemId];
      grouped := grouped[l := grouped[l] + [linear[i]]];
    }
    assert linear[..|linear|] == linear;
  }

  method CreateWorkItemsParallel(g: Plan, root: Ref, planId: int) returns (grouped: seq<seq<WorkItem>>)
    requires Closed(g) && root in g
    ensures grouped == Batches(Linear(g, root, planId))
    ensures forall b :: 0 <= b < |grouped| ==> CarryPlanId(grouped[b], planId)
  {
    var linear := CreateWorkItems(g, root, planId);
    grouped := GroupByLevel(linear);
    LinearCarriesPlanId(g, root, planId);
  }

  // ---- What the dependency ids name ----

  lemma {:induction false} ChildIdsAreIds(g: Plan, kids: seq<Option<Ref>>, d: int)
    requires forall i :: 0 <= i < |kids| && kids[i].Some? ==> kids[i].value in g
    ensures d in ChildIds(g, kids) <==> exists i :: 0 <= i < |kids| && kids[i].Some? && g[kids[i].value].nodeId == d
  {
    if kids != [] {
      var before := kids[..|kids| - 1];
      ChildIdsAreIds(g, before, d);
      assert forall i :: 0 <= i < |before| ==> before[i] == kids[i];
      if d in ChildIds(g, before) {
        var i :| 0 <= i < |before| && before[i].Some? && g[before[i].value].nodeId == d;
        assert kids[i].Some? && g[kids[i].value].nodeId == d;
      }
    }
  }

  lemma DependsOnIsChild(g: Plan, n: Ref, c: Ref, planId: int)
    requires Closed(g) && ChildrenInPlan(g) && DistinctIds(g) && n in g && c in g
    ensures g[c].nodeId in WorkItemOf(g, n, planId).dependsOn <==> Edge(g, n, c)
  {
    ChildIdsAreIds(g, g[n].children, g[c].nodeId);
    if Edge(g, n, c) {
      var i :| 0 <= i < |g[n].children| && g[n].children[i] == Some(c);
    }
  }

  lemma DependsOnNamesChild(g: Plan, n: Ref, d: int, planId: int) returns (c: Ref)
    requires Closed(g) && ChildrenInPlan(g) && n in g && d in WorkItemOf(g, n, planId).dependsOn
    ensures Edge(g, n, c) && c in g && g[c].nodeId == d
  {
    ChildIdsAreIds(g, g[n].children, d);
    var i :| 0 <= i < |g[n].children| && g[n].children[i].Some? && g[g[n].children[i].value].nodeId == d;
    c := g[n].children[i].value;
  }

  lemma IdsOfItems(g: Plan, order: seq<Ref>, planId: int, c: Ref)
    requires ChildrenInPlan(g) && DistinctIds(g) && c in g && forall x :: x in order ==> x in g
    ensures g[c].nodeId in Ids(ItemsOf(g, order, planId)) <==> c in order
  {
    var items := ItemsOf(g, order, planId);
    if c in order {
      var i :| 0 <= i < |order| && order[i] == c;
      assert items[i].itemId == g[c].nodeId;
    }
  }

  lemma ChildrenFirstIsWellOrdered(g: Plan, order: seq<Ref>, planId: int)
    requires ChildrenInPlan(g) && DistinctIds(g) && Distinct(order) && forall n :: n in order ==> n in g
    ensures WellOrdered(ItemsOf(g, order, planId)) <==> ChildrenFirst(g, order)
  {
    var items := ItemsOf(g, order, planId);
    forall k: nat, c: Ref | k < |order| && c in g
      ensures g[c].nodeId in Ids(items[..k]) <==> c in order[..k]
      ensures g[c].nodeId in items[k].dependsOn <==> Edge(g, order[k], c)
    {
      assert items[..k] == ItemsOf(g, order[..k], planId);
      IdsOfItems(g, order[..k], planId, c);
      DependsOnIsChild(g, order[k], c, planId);
    }
    if ChildrenFirst(g, order) {
      forall k, i | 0 <= k < |items| && 0 <= i < |items[k].dependsOn| ensures items[k].dependsOn[i] in Ids(items[..k]) {
        var c := DependsOnNamesChild(g, order[k], items[k].dependsOn[i], planId);
      }
    }
    if WellOrdered(items) {
      forall k: nat, c: Ref | k < |order| && Edge(g, order[k], c) ensures c in order[..k] {
        assert Ready(items[k], Ids(items[..k]));
      }
    }
  }

  /**
    With distinct ids, every dependency id names an earlier item of the list exactly when the plan is
    acyclic; on a cyclic plan some dependency names a later item or the item itself.
   */
  lemma LinearIsWellOrdered(g: Plan, root: Ref, planId: int)
    requires Closed(g) && root in g && DistinctIds(g)
    ensures WellOrdered(Linear(g, root, planId)) <==> AcyclicFrom(g, root)
  {
    ClosedHoldsChildren(g);
    PostOrderIsReachable(g, root);
    PostOrderChildrenFirst(g, root);
    var order := PostOrder(g, root);
    assert forall x :: x in order ==> x in Elements(order);
    ChildrenFirstIsWellOrdered(g, order, planId);
  }
}
