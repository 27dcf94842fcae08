/**
  The shape of the built join tree. It is left-deep only for some orders of the predicates; which ones
  can be told from the predicates alone.
 */
module JoinShape {
  import opened DisjointSets
  import opened Components
  import opened JoinTrees
  import opened JoinMeaning

  /** No JOIN is the right child of a JOIN. */
  predicate LeftDeep(t: Tree) {
    match t
    case Join(_, l, r) => !r.Join? && LeftDeep(l)
    case _ => true
  }

  /** No chain of links leads from `x` to another table. */
  ghost predicate Alone(links: set<Link>, x: Name) {
    forall y :: Linked(links, x, y) ==> y == x
  }

  /** If the `i`-th predicate joins two groups, its second table was still alone. */
  ghost predicate AddsOneTable(preds: seq<Pred>, i: nat)
    requires i < |preds|
  {
    var links, p := PredLinks(preds[..i]), preds[i];
    p.Compare? && !Linked(links, p.t1, p.t2) ==> Alone(links, p.t2)
  }

  // ---- What each group's subtree looks like ----

  ghost predicate OneName(rep: map<Name, Name>, r: Name) {
    forall x :: x in rep && rep[x] == r ==> x == r
  }

  /** All predicates of the group of `r` added one table only. */
  ghost predicate OneByOne(rep: map<Name, Name>, preds: seq<Pred>, r: Name) {
    forall i :: 0 <= i < |preds| && preds[i].Compare? && preds[i].t1 in rep && rep[preds[i].t1] == r ==>
      AddsOneTable(preds, i)
  }

  ghost predicate ShapeOk(rep: map<Name, Name>, t: Tree, preds: seq<Pred>, r: Name) {
    (t.Join? <==> !OneName(rep, r)) && (LeftDeep(t) <==> OneByOne(rep, preds, r))
  }

  ghost predicate ShapesOk(rep: map<Name, Name>, tree: map<Name, Tree>, preds: seq<Pred>) {
    forall r :: IsRoot(rep, r) ==> ShapeOk(rep, At(tree, r), preds, r)
  }

  /** Representatives represent themselves, and the names of the predicates are known. */
  ghost predicate Grounded(rep: map<Name, Name>, tree: map<Name, Tree>, preds: seq<Pred>) {
    && Idempotent(rep) && (forall r :: r in tree ==> IsRoot(rep, r))
    && forall i :: 0 <= i < |preds| && preds[i].Compare? ==> preds[i].t1 in rep && preds[i].t2 in rep
  }

  lemma AddKeepsShapes(rep: map<Name, Name>, tree: map<Name, Tree>, preds: seq<Pred>, x: Name)
    requires ShapesOk(rep, tree, preds) && Grounded(rep, tree, preds)
    ensures ShapesOk(AddRep(rep, x), tree, preds) && Grounded(AddRep(rep, x), tree, preds)
  {
    if x !in rep {
      var rep' := AddRep(rep, x);
      forall r | IsRoot(rep', r) ensures ShapeOk(rep', At(tree, r), preds, r) {
        if r == x {
          assert !IsRoot(rep, x) && OneName(rep', x);
        } else {
          assert IsRoot(rep, r);
          assert OneName(rep', r) <==> OneName(rep, r) by {
            assert forall y :: y in rep' && rep'[y] == r <==> y in rep && rep[y] == r;
          }
        }
      }
    }
  }

  /** The predicates before the last one add one table or more as they did without it. */
  lemma OneByOneOfLast(rep: map<Name, Name>, preds: seq<Pred>, p: Pred, r: Name)
    ensures OneByOne(rep, preds + [p], r) <==>
      && OneByOne(rep, preds, r)
      && (p.Compare? && p.t1 in rep && rep[p.t1] == r ==> AddsOneTable(preds + [p], |preds|))
  {
    var all := preds + [p];
    forall i | 0 <= i < |preds| ensures AddsOneTable(all, i) <==> AddsOneTable(preds, i) {
      assert all[..i] == preds[..i];
    }
    if OneByOne(rep, all, r) {
      forall i | 0 <= i < |preds| && preds[i].Compare? && preds[i].t1 in rep && rep[preds[i].t1] == r
        ensures AddsOneTable(preds, i)
      {
        assert all[i] == preds[i];
      }
    }
  }

  lemma FilterKeepsShapes(rep: map<Name, Name>, tree: map<Name, Tree>, preds: seq<Pred>, p: Pred)
    requires ShapesOk(rep, tree, preds) && (p.Compare? ==> p.t1 in rep && p.t2 in rep)
    requires p.Compare? ==> AddsOneTable(preds + [p], |preds|)
    ensures ShapesOk(rep, tree, preds + [p])
  {
    forall r | IsRoot(rep, r) ensures ShapeOk(rep, At(tree, r), preds + [p], r) {
      OneByOneOfLast(rep, preds, p, r);
    }
  }

  /** The joined subtree is left-deep if the left one is and the right one is no JOIN. */
  lemma JoinedShape(rep: map<Name, Name>, left: Tree, right: Tree, preds: seq<Pred>, p: Pred)
    requires p.Compare? && Merges(rep, p.t1, p.t2) && Idempotent(rep)
    requires ShapeOk(rep, left, preds, rep[p.t1]) && ShapeOk(rep, right, preds, rep[p.t2])
    requires AddsOneTable(preds + [p], |preds|) <==> OneName(rep, rep[p.t2])
    ensures ShapeOk(UniteRep(rep, p.t1, p.t2), Join(p, left, right), preds + [p], rep[p.t1])
  {
    var r1, r2, rep' := rep[p.t1], rep[p.t2], UniteRep(rep, p.t1, p.t2);
    assert rep'[r2] == r1 && !OneName(rep', r1);
    OneByOneOfLast(rep', preds, p, r1);
    assert OneByOne(rep', preds, r1) <==> OneByOne(rep, preds, r1) && OneByOne(rep, preds, r2) by {
      assert forall x :: x in rep ==> (rep'[x] == r1 <==> rep[x] == r1 || rep[x] == r2);
    }
  }

  lemma OtherShape(rep: map<Name, Name>, t: Tree, preds: seq<Pred>, p: Pred, r: Name)
    requires p.Compare? && Merges(rep, p.t1, p.t2) && r != rep[p.t1] && r != rep[p.t2]
    requires ShapeOk(rep, t, preds, r)
    ensures ShapeOk(UniteRep(rep, p.t1, p.t2), t, preds + [p], r)
  {
    var rep' := UniteRep(rep, p.t1, p.t2);
    assert forall x :: x in rep ==> (rep'[x] == r <==> rep[x] == r);
    OneByOneOfLast(rep', preds, p, r);
  }

  lemma JoinKeepsShapes(rep: map<Name, Name>, tree: map<Name, Tree>, preds: seq<Pred>, p: Pred)
    requires ShapesOk(rep, tree, preds) && Grounded(rep, tree, preds) && p.Compare? && Merges(rep, p.t1, p.t2)
    requires AddsOneTable(preds + [p], |preds|) <==> OneName(rep, rep[p.t2])
    ensures ShapesOk(UniteRep(rep, p.t1, p.t2), PlacedTree(rep, tree, p), preds + [p])
  {
    var rep', tree' := UniteRep(rep, p.t1, p.t2), PlacedTree(rep, tree, p);
    forall r | IsRoot(rep', r) ensures ShapeOk(rep', At(tree', r), preds + [p], r) {
      PlacedShape(rep, tree, preds, p, r);
    }
  }

  lemma PlacedShape(rep: map<Name, Name>, tree: map<Name, Tree>, preds: seq<Pred>, p: Pred, r: Name)
    requires ShapesOk(rep, tree, preds) && Grounded(rep, tree, preds) && p.Compare? && Merges(rep, p.t1, p.t2)
    requires AddsOneTable(preds + [p], |preds|) <==> OneName(rep, rep[p.t2])
    requires IsRoot(UniteRep(rep, p.t1, p.t2), r)
    ensures ShapeOk(UniteRep(rep, p.t1, p.t2), At(PlacedTree(rep, tree, p), r), preds + [p], r)
  {
    var r1, r2 := rep[p.t1], rep[p.t2];
    assert IsRoot(rep, r1) && IsRoot(rep, r2);
    if r == r1 {
      JoinedShape(rep, At(tree, r1), At(tree, r2), preds, p);
    } else {
      OtherRoot(rep, p, r);
      OtherShape(rep, At(tree, r), preds, p, r);
    }
  }

  lemma OtherRoot(rep: map<Name, Name>, p: Pred, r: Name)
    requires Idempotent(rep) && p.Compare? && Merges(rep, p.t1, p.t2)
    requires IsRoot(UniteRep(rep, p.t1, p.t2), r) && r != rep[p.t1]
    ensures IsRoot(rep, r) && r != rep[p.t2]
  {
  }

  /** Before a predicate's group is merged, its second table's group is one name iff that table is alone. */
  lemma AloneIffOneName(scans: seq<Name>, preds: seq<Pred>, p: Pred)
    requires p.Compare?
    ensures var rep := AddBoth(GroupRep(scans, preds), p);
      && (rep[p.t1] == rep[p.t2] <==> Linked(PredLinks(preds), p.t1, p.t2))
      && (OneName(rep, rep[p.t2]) <==> Alone(PredLinks(preds), p.t2))
  {
    var rep, links := AddBoth(GroupRep(scans, preds), p), PredLinks(preds);
    BothAdded(scans, preds, p);
    SameGroupWithBoth(scans, preds, p, p.t1, p.t2);
    forall y ensures Linked(links, p.t2, y) <==> y in rep && rep[y] == rep[p.t2] {
      if y in rep {
        SameGroupWithBoth(scans, preds, p, p.t2, y);
      } else if Linked(links, p.t2, y) {
        LinkedIsAdded(scans, preds, p, p.t2, y);
      }
    }
    if Alone(links, p.t2) {
      assert Idempotent(rep);
      assert rep[rep[p.t2]] == rep[p.t2];
    }
  }

  lemma {:induction false} ShapesAfter(scans: seq<Name>, preds: seq<Pred>)
    ensures ShapesOk(GroupRep(scans, preds), BuildAfter(scans, preds).tree, preds)
  {
    if preds == [] {
      GroupRepOfScans(scans);
    } else {
      var before, p := preds[..|preds| - 1], preds[|preds| - 1];
      var rep, tree := GroupRep(scans, before), BuildAfter(scans, before).tree;
      ShapesAfter(scans, before);
      BuildProgress(scans, before);
      assert preds == before + [p] && preds[..|before|] == before;
      if p.Skipped? {
        assert GroupOps(scans, before) + [] == GroupOps(scans, before);
        FilterKeepsShapes(rep, tree, before, p);
      } else {
        AfterPred(GroupOps(scans, before), p);
        AddKeepsShapes(rep, tree, before, p.t1);
        AddKeepsShapes(AddRep(rep, p.t1), tree, before, p.t2);
        AloneIffOneName(scans, before, p);
        PlaceKeepsShapes(AddBoth(rep, p), tree, before, p);
      }
    }
  }

  lemma PlaceKeepsShapes(rep: map<Name, Name>, tree: map<Name, Tree>, preds: seq<Pred>, p: Pred)
    requires ShapesOk(rep, tree, preds) && Grounded(rep, tree, preds) && p.Compare? && p.t1 in rep && p.t2 in rep
    requires rep[p.t1] == rep[p.t2] <==> Linked(PredLinks(preds), p.t1, p.t2)
    requires OneName(rep, rep[p.t2]) <==> Alone(PredLinks(preds), p.t2)
    ensures ShapesOk(UniteRep(rep, p.t1, p.t2), PlacedTree(rep, tree, p), preds + [p])
  {
    assert (preds + [p])[..|preds|] == preds;
    if Merges(rep, p.t1, p.t2) {
      JoinKeepsShapes(rep, tree, preds, p);
    } else {
      FilterKeepsShapes(rep, tree, preds, p);
    }
  }

  // ---- Main result ----

  /**
    The tree is left-deep exactly when every predicate of the first table's component that joins two groups
    adds one table: its second table is linked to no other by the predicates before it.
   */
  lemma LeftDeepIff(scans: seq<Name>, preds: seq<Pred>)
    requires scans != []
    ensures LeftDeep(BuiltTree(scans, preds)) <==>
      forall i :: 0 <= i < |preds| && preds[i].Compare? && Linked(PredLinks(preds), scans[0], preds[i].t1) ==>
        AddsOneTable(preds, i)
  {
    var rep := GroupRep(scans, preds);
    ShapesAfter(scans, preds);
    BuildProgress(scans, preds);
    ScansInGroups(scans, preds);
    assert IsRoot(rep, rep[scans[0]]);
    assert ShapeOk(rep, BuiltTree(scans, preds), preds, rep[scans[0]]);
    forall i | 0 <= i < |preds| && preds[i].Compare?
      ensures preds[i].t1 in rep
      ensures rep[preds[i].t1] == rep[scans[0]] <==> Linked(PredLinks(preds), scans[0], preds[i].t1)
    {
      assert preds[i] in preds;
      SameGroupIffConnected(scans, preds, scans[0], preds[i].t1);
    }
  }

  const AB := Compare("a", "b", "a.x = b.x")
  const CA := Compare("c", "a", "c.x = a.x")

  /** FROM a, b, c with predicates a-b and then c-a: the second joins c with the JOIN of a and b on the right. */
  lemma NotAlwaysLeftDeep()
    ensures !LeftDeep(BuiltTree(["a", "b", "c"], [AB, CA]))
  {
    var preds := [AB, CA];
    assert preds[..1] == [AB] && PredLinks([AB]) == {("a", "b")};
    assert AB in [AB] && CA in preds;
    LinkedByLink({("a", "b")}, "a", "b");
    if Linked({("a", "b")}, "c", "a") {
      var c :| Trail({("a", "b")}, c) && c[0] == "c" && c[|c| - 1] == "a";
      TrailStep({("a", "b")}, c);
    }
    assert !AddsOneTable(preds, 1);
    LinkedByLink(PredLinks(preds), "a", "c");
    LeftDeepIff(["a", "b", "c"], preds);
  }
}
