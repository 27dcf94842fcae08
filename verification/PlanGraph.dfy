/**
  The physical plan handed to the translator: a finite heap of plan nodes, each with a list of
  possibly-null child pointers (children may be shared). The recursive post-order walk `Visit` is the
  reference that the translator's explicit-stack walk is proved against.
 */
module PlanGraph {

  datatype Option<+T> = None | Some(value: T)

  /** The address of a plan node. */
  type Ref = nat

  /** `op` stands for everything of the node that only ends up in the work item's operator payload. */
  datatype PlanNode = PlanNode(nodeId: int, op: string, children: seq<Option<Ref>>)

  type Plan = map<Ref, PlanNode>

  predicate Edge(g: Plan, a: Ref, b: Ref) {
    a in g && Some(b) in g[a].children
  }

  /** Every non-null child pointer points at a node of the plan. */
  ghost predicate Closed(g: Plan) {
    forall a: Ref, b: Ref :: Edge(g, a, b) ==> b in g
  }

  ghost predicate Walk(g: Plan, p: seq<Ref>) {
    && |p| > 0
    && p[0] in g
    && forall i :: 0 <= i < |p| - 1 ==> Edge(g, p[i], p[i + 1])
  }

  ghost predicate Reaches(g: Plan, a: Ref, b: Ref) {
    exists p :: Walk(g, p) && p[0] == a && p[|p| - 1] == b
  }

  /** No edge that can be reached from the root lies on a cycle. */
  ghost predicate AcyclicFrom(g: Plan, root: Ref) {
    forall a: Ref, b: Ref :: Reaches(g, root, a) && Edge(g, a, b) ==> !Reaches(g, b, a)
  }

  /** The ids of the plan's nodes tell the nodes apart. */
  ghost predicate DistinctIds(g: Plan) {
    forall a: Ref, b: Ref :: a in g && b in g && g[a].nodeId == g[b].nodeId ==> a == b
  }

  function Elements(s: seq<Ref>): set<Ref> {
    set x | x in s
  }

  ghost predicate Distinct<T(!new)>(s: seq<T>) {
    forall i, j :: 0 <= i < j < |s| ==> s[i] != s[j]
  }

  /** Each node of the list comes after all its children. */
  ghost predicate ChildrenFirst(g: Plan, order: seq<Ref>) {
    forall k: nat, c: Ref :: k < |order| && Edge(g, order[k], c) ==> c in order[..k]
  }

  // ---- The reference walk ----

  /** What a post-order visit of `n` emits when the nodes of `seen` are not entered again. */
  ghost function Visit(g: Plan, n: Ref, seen: set<Ref>): (order: seq<Ref>)
    requires Closed(g) && n in g && n !in seen
    ensures Elements(order) <= g.Keys
    decreases |g.Keys - seen|, 0
  {
    assert g.Keys - (seen + {n}) < g.Keys - seen by { assert n in g.Keys - seen; }
    CardinalityStrict(g.Keys - (seen + {n}), g.Keys - seen);
    assert forall c: Ref :: Some(c) in g[n].children ==> Edge(g, n, c);
    VisitAll(g, g[n].children, seen + {n}) + [n]
  }

  ghost function VisitAll(g: Plan, kids: seq<Option<Ref>>, seen: set<Ref>): (order: seq<Ref>)
    requires Closed(g) && forall c: Ref :: Some(c) in kids ==> c in g
    ensures Elements(order) <= g.Keys
    decreases |g.Keys - seen|, |kids|
  {
    if kids == [] then []
    else if kids[0].None? || kids[0].value in seen then VisitAll(g, kids[1..], seen)
    else
      var first := Visit(g, kids[0].value, seen);
      CardinalityMonotone(g.Keys - (seen + Elements(first)), g.Keys - seen);
      first + VisitAll(g, kids[1..], seen + Elements(first))
  }

  ghost function PostOrder(g: Plan, root: Ref): seq<Ref>
    requires Closed(g) && root in g
  {
    Visit(g, root, {})
  }

  // ---- Sets and walks ----

  lemma CardinalityMonotone<T>(a: set<T>, b: set<T>)
    requires a <= b
    ensures |a| <= |b|
  {
    assert b == a + (b - a);
  }

  lemma CardinalityStrict<T>(a: set<T>, b: set<T>)
    requires a < b
    ensures |a| < |b|
  {
    assert b == a + (b - a);
    assert b - a != {};
  }

  lemma ReachesSelf(g: Plan, a: Ref)
    requires a in g
    ensures Reaches(g, a, a)
  {
    assert Walk(g, [a]);
  }

  lemma ReachesTransitive(g: Plan, a: Ref, b: Ref, c: Ref)
    requires Reaches(g, a, b) && Reaches(g, b, c)
    ensures Reaches(g, a, c)
  {
    var p :| Walk(g, p) && p[0] == a && p[|p| - 1] == b;
    var q :| Walk(g, q) && q[0] == b && q[|q| - 1] == c;
    var r := p + q[1..];
    forall i | 0 <= i < |r| - 1 ensures Edge(g, r[i], r[i + 1]) {
      if i >= |p| - 1 {
        assert r[i] == q[i - |p| + 1] && r[i + 1] == q[i - |p| + 2];
      }
    }
    assert Walk(g, r);
  }

  lemma ReachesEdge(g: Plan, a: Ref, b: Ref)
    requires Edge(g, a, b)
    ensures Reaches(g, a, b)
  {
    assert Walk(g, [a, b]);
  }

  lemma ReachesThrough(g: Plan, a: Ref, b: Ref, c: Ref)
    requires Edge(g, a, b) && Reaches(g, b, c)
    ensures Reaches(g, a, c)
  {
    ReachesEdge(g, a, b);
    ReachesTransitive(g, a, b, c);
  }

  /** A set closed under edges contains everything reachable from its members. */
  lemma {:induction false} ReachableStaysIn(g: Plan, s: set<Ref>, p: seq<Ref>)
    requires Closed(g) && forall a: Ref, b: Ref :: a in s && Edge(g, a, b) ==> b in s
    requires Walk(g, p) && p[0] in s
    ensures p[|p| - 1] in s
  {
    if |p| > 1 {
      assert Edge(g, p[0], p[0 + 1]);
      assert Walk(g, p[1..]);
      ReachableStaysIn(g, s, p[1..]);
    }
  }

  // ---- What the reference walk emits ----

  /** Nothing is emitted twice or again, and no pointer leads out of what was seen or emitted. */
  ghost predicate Emission(g: Plan, kids: seq<Option<Ref>>, seen: set<Ref>, order: seq<Ref>) {
    && Distinct(order)
    && (forall x :: x in order ==> x !in seen)
    && (forall c: Ref :: Some(c) in kids ==> c in seen || c in order)
    && (forall a: Ref, c: Ref :: a in order && Edge(g, a, c) ==> c in seen || c in order)
  }

  lemma {:induction false} VisitEmits(g: Plan, n: Ref, seen: set<Ref>)
    requires Closed(g) && n in g && n !in seen
    ensures Emission(g, [Some(n)], seen, Visit(g, n, seen))
    decreases |g.Keys - seen|, 0
  {
    assert n in g.Keys - seen && n !in g.Keys - (seen + {n});
    CardinalityStrict(g.Keys - (seen + {n}), g.Keys - seen);
    assert forall c: Ref :: Some(c) in g[n].children ==> Edge(g, n, c);
    VisitAllEmits(g, g[n].children, seen + {n});
    var inner := VisitAll(g, g[n].children, seen + {n});
  }

  lemma {:induction false} VisitAllEmits(g: Plan, kids: seq<Option<Ref>>, seen: set<Ref>)
    requires Closed(g) && forall c: Ref :: Some(c) in kids ==> c in g
    ensures Emission(g, kids, seen, VisitAll(g, kids, seen))
    decreases |g.Keys - seen|, |kids|
  {
    if kids == [] {
    } else if kids[0].None? || kids[0].value in seen {
      VisitAllEmits(g, kids[1..], seen);
    } else {
      var first := Visit(g, kids[0].value, seen);
      VisitEmits(g, kids[0].value, seen);
      CardinalityMonotone(g.Keys - (seen + Elements(first)), g.Keys - seen);
      VisitAllEmits(g, kids[1..], seen + Elements(first));
      EmissionJoins(g, kids, seen, first, VisitAll(g, kids[1..], seen + Elements(first)));
    }
  }

  lemma EmissionJoins(g: Plan, kids: seq<Option<Ref>>, seen: set<Ref>, first: seq<Ref>, rest: seq<Ref>)
    requires kids != [] && kids[0].Some?
    requires Emission(g, [kids[0]], seen, first)
    requires Emission(g, kids[1..], seen + Elements(first), rest)
    ensures Emission(g, kids, seen, first + rest)
  {
    var order := first + rest;
    assert forall x :: x in order <==> x in first || x in rest;
    assert kids[0] in [kids[0]];
    forall c: Ref | Some(c) in kids ensures c in seen || c in order {
      assert Some(c) == kids[0] || Some(c) in kids[1..];
    }
    forall i, j | 0 <= i < j < |order| ensures order[i] != order[j] {
      if i < |first| <= j {
        assert order[i] in Elements(first) && order[j] in rest;
      }
    }
  }

  lemma {:induction false} VisitReachable(g: Plan, r: Ref, n: Ref, seen: set<Ref>)
    requires Closed(g) && n in g && n !in seen && Reaches(g, r, n)
    ensures forall x :: x in Visit(g, n, seen) ==> Reaches(g, r, x)
    ensures forall x :: x in Visit(g, n, seen) ==> Reaches(g, n, x)
    decreases |g.Keys - seen|, 0
  {
    assert n in g.Keys - seen && n !in g.Keys - (seen + {n});
    CardinalityStrict(g.Keys - (seen + {n}), g.Keys - seen);
    ReachesSelf(g, n);
    forall c: Ref | Some(c) in g[n].children ensures c in g && Reaches(g, n, c) {
      assert Edge(g, n, c);
      ReachesEdge(g, n, c);
    }
    VisitAllReachable(g, n, g[n].children, seen + {n});
    forall x | x in Visit(g, n, seen) ensures Reaches(g, r, x) {
      ReachesTransitive(g, r, n, x);
    }
  }

  lemma {:induction false} VisitAllReachable(g: Plan, r: Ref, kids: seq<Option<Ref>>, seen: set<Ref>)
    requires Closed(g) && forall c: Ref :: Some(c) in kids ==> c in g && Reaches(g, r, c)
    ensures forall x :: x in VisitAll(g, kids, seen) ==> Reaches(g, r, x)
    decreases |g.Keys - seen|, |kids|
  {
    if kids == [] {
    } else if kids[0].None? || kids[0].value in seen {
      VisitAllReachable(g, r, kids[1..], seen);
    } else {
      var first := Visit(g, kids[0].value, seen);
      VisitReachable(g, r, kids[0].value, seen);
      CardinalityMonotone(g.Keys - (seen + Elements(first)), g.Keys - seen);
      VisitAllReachable(g, r, kids[1..], seen + Elements(first));
    }
  }

  /** `ChildrenFirst`, with the children in `seen` already accounted for. */
  ghost predicate ChildrenFirstOrSeen(g: Plan, seen: set<Ref>, order: seq<Ref>) {
    forall k: nat, c: Ref :: k < |order| && Edge(g, order[k], c) ==> c in seen || c in order[..k]
  }

  lemma {:induction false} VisitTopological(g: Plan, root: Ref, n: Ref, seen: set<Ref>)
    requires Closed(g) && n in g && n !in seen && Reaches(g, root, n) && AcyclicFrom(g, root)
    ensures ChildrenFirstOrSeen(g, seen, Visit(g, n, seen))
    decreases |g.Keys - seen|, 0
  {
    assert n in g.Keys - seen && n !in g.Keys - (seen + {n});
    CardinalityStrict(g.Keys - (seen + {n}), g.Keys - seen);
    forall c: Ref | Some(c) in g[n].children ensures c in g && Reaches(g, n, c) && Reaches(g, root, c) {
      assert Edge(g, n, c);
      ReachesEdge(g, n, c);
      ReachesTransitive(g, root, n, c);
    }
    VisitAllTopological(g, root, g[n].children, seen + {n});
    VisitAllReachable(g, n, g[n].children, seen + {n});
    VisitAllEmits(g, g[n].children, seen + {n});
    var inner := VisitAll(g, g[n].children, seen + {n});
    var order := Visit(g, n, seen);
    ReachesSelf(g, n);
    forall k: nat, c: Ref | k < |order| && Edge(g, order[k], c) ensures c in seen || c in order[..k] {
      // A child that is `n` itself would close a cycle through `n`.
      ReachesTransitive(g, root, n, order[k]);
      if c == n { ReachesSelf(g, n); }
      if k < |inner| {
        assert inner[..k] == order[..k];
      } else {
        assert order[..k] == inner;
      }
    }
  }

  lemma {:induction false} VisitAllTopological(g: Plan, root: Ref, kids: seq<Option<Ref>>, seen: set<Ref>)
    requires Closed(g) && AcyclicFrom(g, root)
    requires forall c: Ref :: Some(c) in kids ==> c in g && Reaches(g, root, c)
    ensures ChildrenFirstOrSeen(g, seen, VisitAll(g, kids, seen))
    decreases |g.Keys - seen|, |kids|
  {
    if kids == [] {
    } else if kids[0].None? || kids[0].value in seen {
      VisitAllTopological(g, root, kids[1..], seen);
    } else {
      var first := Visit(g, kids[0].value, seen);
      VisitTopological(g, root, kids[0].value, seen);
      CardinalityMonotone(g.Keys - (seen + Elements(first)), g.Keys - seen);
      VisitAllTopological(g, root, kids[1..], seen + Elements(first));
      var rest := VisitAll(g, kids[1..], seen + Elements(first));
      ChildrenFirstJoins(g, seen, first, rest);
    }
  }

  lemma ChildrenFirstJoins(g: Plan, seen: set<Ref>, first: seq<Ref>, rest: seq<Ref>)
    requires ChildrenFirstOrSeen(g, seen, first) && ChildrenFirstOrSeen(g, seen + Elements(first), rest)
    ensures ChildrenFirstOrSeen(g, seen, first + rest)
  {
    var order := first + rest;
    forall k: nat, c: Ref | k < |order| && Edge(g, order[k], c) ensures c in seen || c in order[..k] {
      if k < |first| {
        assert Edge(g, first[k], c) && order[..k] == first[..k];
      } else {
        var j: nat := k - |first|;
        assert Edge(g, rest[j], c) && order[..k] == first + rest[..j];
        assert c in seen + Elements(first) || c in rest[..j];
      }
    }
  }

  lemma {:induction false} VisitAllConcat(g: Plan, a: seq<Option<Ref>>, b: seq<Option<Ref>>, seen: set<Ref>)
    requires Closed(g) && (forall c: Ref :: Some(c) in a ==> c in g) && (forall c: Ref :: Some(c) in b ==> c in g)
    ensures VisitAll(g, a + b, seen)
      == VisitAll(g, a, seen) + VisitAll(g, b, seen + Elements(VisitAll(g, a, seen)))
    decreases |a|
  {
    if a == [] {
      assert a + b == b && seen + Elements([]) == seen;
    } else {
      assert (a + b)[0] == a[0] && (a + b)[1..] == a[1..] + b;
      if a[0].None? || a[0].value in seen {
        VisitAllConcat(g, a[1..], b, seen);
      } else {
        var first := Visit(g, a[0].value, seen);
        VisitAllConcat(g, a[1..], b, seen + Elements(first));
        var rest := VisitAll(g, a[1..], seen + Elements(first));
        assert seen + Elements(first + rest) == seen + Elements(first) + Elements(rest);
      }
    }
  }

  ghost predicate Earlier(order: seq<Ref>, a: Ref, b: Ref) {
    exists m, n :: 0 <= m < n < |order| && order[m] == a && order[n] == b
  }

  lemma EarlierPart(x: seq<Ref>, y: seq<Ref>, z: seq<Ref>, a: Ref, b: Ref)
    requires a in x && b in y
    ensures Earlier(x + y + z, a, b)
  {
    var m :| 0 <= m < |x| && x[m] == a;
    var n :| 0 <= n < |y| && y[n] == b;
    assert (x + y + z)[m] == a && (x + y + z)[|x| + n] == b;
  }

  /** The node can be reached from one of the children. */
  ghost predicate Below(g: Plan, kids: seq<Option<Ref>>, x: Ref) {
    exists c: Ref :: Some(c) in kids && Reaches(g, c, x)
  }

  /** An earlier child of the root comes before a later one that cannot be reached from the children before it. */
  lemma ChildrenInOrder(g: Plan, root: Ref, i: nat, j: nat)
    requires Closed(g) && root in g && i < j < |g[root].children|
    requires g[root].children[i].Some? && g[root].children[j].Some?
    requires var later := g[root].children[j].value;
      g[root].children[i].value != root && later != root && !Below(g, g[root].children[..j], later)
    ensures Earlier(PostOrder(g, root), g[root].children[i].value, g[root].children[j].value)
  {
    var kids, seen := g[root].children, {root};
    var front, back := kids[..j], kids[j..];
    forall c: Ref | Some(c) in kids ensures c in g {
      assert Edge(g, root, c);
    }
    assert kids == front + back && front[i] == kids[i] && back[0] == kids[j];
    VisitAllConcat(g, front, back, seen);
    var early := VisitAll(g, front, seen);
    var late := VisitAll(g, back, seen + Elements(early));
    EmitsKid(g, front, seen, kids[i].value);
    if kids[j].value in early {
      EmittedIsBelow(g, front, seen, kids[j].value);
    }
    EmitsKid(g, back, seen + Elements(early), kids[j].value);
    EarlierPart(early, late, [root], kids[i].value, kids[j].value);
    RootComesLast(g, root);
  }

  lemma EmitsKid(g: Plan, kids: seq<Option<Ref>>, seen: set<Ref>, c: Ref)
    requires Closed(g) && (forall x: Ref :: Some(x) in kids ==> x in g) && Some(c) in kids && c !in seen
    ensures c in VisitAll(g, kids, seen)
  {
    VisitAllEmits(g, kids, seen);
  }

  lemma RootComesLast(g: Plan, root: Ref)
    requires Closed(g) && root in g && forall c: Ref :: Some(c) in g[root].children ==> c in g
    ensures PostOrder(g, root) == VisitAll(g, g[root].children, {root}) + [root]
  {
    assert {} + {root} == {root};
  }

  /** Everything emitted is reachable from one of the children visited. */
  lemma {:induction false} EmittedIsBelow(g: Plan, kids: seq<Option<Ref>>, seen: set<Ref>, x: Ref)
    requires Closed(g) && (forall c: Ref :: Some(c) in kids ==> c in g) && x in VisitAll(g, kids, seen)
    ensures Below(g, kids, x)
    decreases |kids|
  {
    if kids[0].None? || kids[0].value in seen {
      EmittedIsBelow(g, kids[1..], seen, x);
    } else {
      var c := kids[0].value;
      var first := Visit(g, c, seen);
      if x in first {
        ReachesSelf(g, c);
        VisitReachable(g, c, c, seen);
        assert Some(c) in kids;
      } else {
        EmittedIsBelow(g, kids[1..], seen + Elements(first), x);
      }
    }
  }

  /** The walk emits exactly the nodes reachable through non-null children, once each, the root last. */
  lemma PostOrderIsReachable(g: Plan, root: Ref)
    requires Closed(g) && root in g
    ensures var order := PostOrder(g, root);
      && Distinct(order)
      && |order| > 0 && order[|order| - 1] == root
      && forall x: Ref :: x in order <==> Reaches(g, root, x)
  {
    var order := PostOrder(g, root);
    ReachesSelf(g, root);
    VisitEmits(g, root, {});
    VisitReachable(g, root, root, {});
    forall x: Ref | Reaches(g, root, x) ensures x in order {
      var p :| Walk(g, p) && p[0] == root && p[|p| - 1] == x;
      ReachableStaysIn(g, Elements(order), p);
    }
  }

  /**
    Every node comes after all its children exactly when no cycle can be reached from the root; on a
    cyclic plan the walk still ends, but some dependency then names a later item.
   */
  lemma PostOrderChildrenFirst(g: Plan, root: Ref)
    requires Closed(g) && root in g
    ensures ChildrenFirst(g, PostOrder(g, root)) <==> AcyclicFrom(g, root)
  {
    var order := PostOrder(g, root);
    ReachesSelf(g, root);
    if AcyclicFrom(g, root) {
      VisitTopological(g, root, root, {});
      var none: set<Ref> := {};
      assert ChildrenFirstOrSeen(g, none, order);
      forall k: nat, c: Ref | k < |order| && Edge(g, order[k], c) ensures c in order[..k] {
        assert c in none || c in order[..k];
      }
    }
    if ChildrenFirst(g, order) {
      PostOrderIsReachable(g, root);
      forall a: Ref, b: Ref | Reaches(g, root, a) && Edge(g, a, b) ensures !Reaches(g, b, a) {
        var i :| 0 <= i < |order| && order[i] == a;
        var earlier := Elements(order[..i]);
        assert b in earlier;
        forall c: Ref, d: Ref | c in earlier && Edge(g, c, d) ensures d in earlier {
          var k :| 0 <= k < i && order[k] == c;
          assert d in order[..k];
        }
        forall p | Walk(g, p) && p[0] == b ensures p[|p| - 1] != a {
          ReachableStaysIn(g, earlier, p);
        }
      }
    }
  }
}
