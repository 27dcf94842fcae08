/**
  What a join tree selects, compared with what the query asks for. A database says which rows a table
  has, `sem` decides a condition on two rows, and an answer picks one row per table.
 */
module JoinMeaning {
  import opened DisjointSets
  import opened Components
  import opened JoinTrees
  import opened Sequences

  ghost predicate Holds(p: Pred, sem: (string, int, int) -> bool, row: Name -> int) {
    p.Compare? ==> sem(p.cond, row(p.t1), row(p.t2))
  }

  ghost predicate Selects(t: Tree, db: (Name, int) -> bool, sem: (string, int, int) -> bool, row: Name -> int) {
    match t
    case NoTree => false
    case Scan(x) => db(x, row(x))
    case Join(p, l, r) => Holds(p, sem, row) && Selects(l, db, sem, row) && Selects(r, db, sem, row)
  }

  ghost predicate AllHold(preds: seq<Pred>, sem: (string, int, int) -> bool, row: Name -> int) {
    forall p :: p in preds ==> Holds(p, sem, row)
  }

  /** The query itself: a row of every FROM table such that all predicates hold. */
  ghost predicate Answers(scans: seq<Name>, preds: seq<Pred>, db: (Name, int) -> bool,
                          sem: (string, int, int) -> bool, row: Name -> int)
  {
    (forall x :: x in scans ==> db(x, row(x))) && AllHold(preds, sem, row)
  }

  /** Join tree and extra filters answer the query, whatever the data and whatever the conditions mean. */
  ghost predicate SameMeaning(scans: seq<Name>, preds: seq<Pred>, tree: Tree, extra: seq<Pred>) {
    forall db, sem, row ::
      Selects(tree, db, sem, row) && AllHold(extra, sem, row) <==> Answers(scans, preds, db, sem, row)
  }

  function PredLinks(preds: seq<Pred>): set<Link> {
    set p | p in preds && p.Compare? :: (p.t1, p.t2)
  }

  ghost predicate Connected(scans: seq<Name>, preds: seq<Pred>) {
    forall x :: x in scans ==> Linked(PredLinks(preds), scans[0], x)
  }

  // ---- The groups are the components of the predicate graph ----

  lemma {:induction false} LinksOfAdds(scans: seq<Name>)
    ensures LinksAfter(AddOps(scans)) == {}
  {
    if scans != [] {
      assert AddOps(scans)[..|scans| - 1] == AddOps(scans[..|scans| - 1]);
      LinksOfAdds(scans[..|scans| - 1]);
    }
  }

  lemma PredLinksOfLast(preds: seq<Pred>, p: Pred)
    ensures PredLinks(preds + [p]) == PredLinks(preds) + if p.Compare? then {(p.t1, p.t2)} else {}
  {
    forall l | l in PredLinks(preds) ensures l in PredLinks(preds + [p]) {
      var q :| q in preds && q.Compare? && l == (q.t1, q.t2);
      assert q in preds + [p];
    }
    if p.Compare? {
      assert p in preds + [p];
    }
  }

  lemma {:induction false} GroupLinks(scans: seq<Name>, preds: seq<Pred>)
    ensures LinksAfter(GroupOps(scans, preds)) == PredLinks(preds)
  {
    if preds == [] {
      LinksOfAdds(scans);
    } else {
      var before, p := preds[..|preds| - 1], preds[|preds| - 1];
      GroupLinks(scans, before);
      PredLinksOfLast(before, p);
      assert preds == before + [p];
      if p.Skipped? {
        assert GroupOps(scans, before) + [] == GroupOps(scans, before);
      } else {
        AfterPred(GroupOps(scans, before), p);
      }
    }
  }

  lemma SameGroupIffConnected(scans: seq<Name>, preds: seq<Pred>, x: Name, y: Name)
    requires x in GroupRep(scans, preds) && y in GroupRep(scans, preds)
    ensures GroupRep(scans, preds)[x] == GroupRep(scans, preds)[y] <==> Linked(PredLinks(preds), x, y)
  {
    GroupLinks(scans, preds);
    SameGroupIffLinked(GroupOps(scans, preds), x, y);
  }

  // ---- The groups just before a predicate is placed ----

  function BothOps(scans: seq<Name>, preds: seq<Pred>, p: Pred): seq<Op>
    requires p.Compare?
  {
    GroupOps(scans, preds) + [Op.Add(p.t1)] + [Op.Add(p.t2)]
  }

  lemma BothAdded(scans: seq<Name>, preds: seq<Pred>, p: Pred)
    requires p.Compare?
    ensures RepAfter(BothOps(scans, preds, p)) == AddBoth(GroupRep(scans, preds), p)
    ensures LinksAfter(BothOps(scans, preds, p)) == PredLinks(preds) && Idempotent(AddBoth(GroupRep(scans, preds), p))
  {
    AfterBoth(GroupOps(scans, preds), p);
    GroupLinks(scans, preds);
    RepIsIdempotent(BothOps(scans, preds, p));
  }

  lemma SameGroupWithBoth(scans: seq<Name>, preds: seq<Pred>, p: Pred, x: Name, y: Name)
    requires p.Compare? && x in AddBoth(GroupRep(scans, preds), p) && y in AddBoth(GroupRep(scans, preds), p)
    ensures var rep := AddBoth(GroupRep(scans, preds), p);
      rep[x] == rep[y] <==> Linked(PredLinks(preds), x, y)
  {
    BothAdded(scans, preds, p);
    SameGroupIffLinked(BothOps(scans, preds, p), x, y);
  }

  lemma LinkedIsAdded(scans: seq<Name>, preds: seq<Pred>, p: Pred, x: Name, y: Name)
    requires p.Compare? && x in AddBoth(GroupRep(scans, preds), p) && Linked(PredLinks(preds), x, y)
    ensures y in AddBoth(GroupRep(scans, preds), p)
  {
    BothAdded(scans, preds, p);
    RepDescribesLinks(BothOps(scans, preds, p));
    var c :| Trail(PredLinks(preds), c) && c[0] == x && c[|c| - 1] == y;
    TrailHasOneRepresentative(AddBoth(GroupRep(scans, preds), p), PredLinks(preds), c);
  }

  /** The tree holds exactly the FROM tables that the predicates connect with the first one. */
  lemma TreeCoversFirstComponent(scans: seq<Name>, preds: seq<Pred>, tree: Tree, extra: seq<Pred>)
    requires BuiltFrom(scans, preds, tree, extra)
    ensures Tables(tree) == set x | x in scans && Linked(PredLinks(preds), scans[0], x)
  {
    var rep := GroupRep(scans, preds);
    forall x | x in scans
      ensures x in rep && (rep[x] == rep[scans[0]] <==> Linked(PredLinks(preds), scans[0], x))
    {
      assert x in set y | y in scans;
      SameGroupIffConnected(scans, preds, scans[0], x);
    }
  }

  // ---- Meaning ----

  lemma {:induction false} SelectsByParts(t: Tree, db: (Name, int) -> bool, sem: (string, int, int) -> bool,
                                          row: Name -> int)
    ensures Selects(t, db, sem, row) <==>
      && Complete(t)
      && (forall x :: x in Tables(t) ==> db(x, row(x)))
      && forall p :: p in Preds(t) ==> Holds(p, sem, row)
  {
    match t {
      case NoTree =>
      case Scan(x) =>
      case Join(p, l, r) =>
        SelectsByParts(l, db, sem, row);
        SelectsByParts(r, db, sem, row);
    }
  }

  /** The `i`-th predicate compares tables that the ones before it link already. */
  ghost predicate BecomesFilter(preds: seq<Pred>, i: nat)
    requires i < |preds|
  {
    preds[i].Compare? && Linked(PredLinks(preds[..i]), preds[i].t1, preds[i].t2)
  }

  ghost predicate FiltersSomewhere(preds: seq<Pred>, p: Pred) {
    exists i :: 0 <= i < |preds| && preds[i] == p && BecomesFilter(preds, i)
  }

  /** The extra filters are exactly the predicates between tables linked before. */
  lemma {:induction false} FilterIffLinkedBefore(scans: seq<Name>, preds: seq<Pred>, p: Pred)
    ensures p in BuildAfter(scans, preds).extra <==> FiltersSomewhere(preds, p)
  {
    if preds != [] {
      var before, last := preds[..|preds| - 1], preds[|preds| - 1];
      FilterIffLinkedBefore(scans, before, p);
      FiltersOfLast(preds, p);
      if last.Compare? {
        SameGroupWithBoth(scans, before, last, last.t1, last.t2);
      }
    }
  }

  lemma FiltersOfLast(preds: seq<Pred>, p: Pred)
    requires preds != []
    ensures FiltersSomewhere(preds, p) <==>
      FiltersSomewhere(preds[..|preds| - 1], p) || (preds[|preds| - 1] == p && BecomesFilter(preds, |preds| - 1))
  {
    var n, before := |preds| - 1, preds[..|preds| - 1];
    if FiltersSomewhere(before, p) {
      var i :| 0 <= i < n && before[i] == p && BecomesFilter(before, i);
      FilterOfPrefix(preds, i);
    }
    if FiltersSomewhere(preds, p) {
      var i :| 0 <= i < |preds| && preds[i] == p && BecomesFilter(preds, i);
      if i < n {
        FilterOfPrefix(preds, i);
      }
    }
  }

  lemma FilterOfPrefix(preds: seq<Pred>, i: nat)
    requires i < |preds| - 1
    ensures preds[..|preds| - 1][i] == preds[i]
    ensures BecomesFilter(preds[..|preds| - 1], i) <==> BecomesFilter(preds, i)
  {
    assert preds[..|preds| - 1][..i] == preds[..i];
  }

  ghost function FilterPositions(preds: seq<Pred>): set<nat> {
    set i: nat | i < |preds| && BecomesFilter(preds, i)
  }

  lemma FilterPositionsOfLast(preds: seq<Pred>)
    requires preds != []
    ensures var n, chosen := |preds| - 1, FilterPositions(preds[..|preds| - 1]);
      FilterPositions(preds) == if BecomesFilter(preds, n) then chosen + {n} else chosen
  {
    var n, before := |preds| - 1, preds[..|preds| - 1];
    forall i: nat | i < n ensures i in FilterPositions(preds) <==> i in FilterPositions(before) {
      FilterOfPrefix(preds, i);
    }
  }

  /** The extra filters are the predicates between tables linked before, in the order of the predicates. */
  lemma {:induction false} FiltersAreInOrder(scans: seq<Name>, preds: seq<Pred>)
    ensures Selected(BuildAfter(scans, preds).extra, preds, FilterPositions(preds))
  {
    if preds == [] {
      NoFilters(scans);
    } else {
      FiltersAreInOrder(scans, preds[..|preds| - 1]);
      FiltersNext(scans, preds);
    }
  }

  lemma FiltersNext(scans: seq<Name>, preds: seq<Pred>)
    requires preds != []
    requires var before := preds[..|preds| - 1];
      Selected(BuildAfter(scans, before).extra, before, FilterPositions(before))
    ensures Selected(BuildAfter(scans, preds).extra, preds, FilterPositions(preds))
  {
    var n, before := |preds| - 1, preds[..|preds| - 1];
    ExtraOfLast(scans, preds);
    FilterPositionsOfLast(preds);
    SelectedLast(BuildAfter(scans, before).extra, BuildAfter(scans, preds).extra, FilterPositions(before),
                 FilterPositions(preds), preds, BecomesFilter(preds, n));
  }

  lemma SelectedLast(part: seq<Pred>, part': seq<Pred>, chosen: set<nat>, chosen': set<nat>, preds: seq<Pred>,
                     keep: bool)
    requires preds != [] && Selected(part, preds[..|preds| - 1], chosen)
    requires part' == if keep then part + [preds[|preds| - 1]] else part
    requires chosen' == if keep then chosen + {|preds| - 1} else chosen
    ensures Selected(part', preds, chosen')
  {
    var before, p := preds[..|preds| - 1], preds[|preds| - 1];
    assert preds == before + [p];
    SelectedKeep(part, before, chosen, p);
    SelectedSkip(part, before, chosen, p);
  }

  lemma NoFilters(scans: seq<Name>)
    ensures Selected(BuildAfter(scans, []).extra, [], FilterPositions([]))
  {
    NoneSelected<Pred>();
    assert FilterPositions([]) == {};
  }

  lemma ExtraOfLast(scans: seq<Name>, preds: seq<Pred>)
    requires preds != []
    ensures var n, part := |preds| - 1, BuildAfter(scans, preds[..|preds| - 1]).extra;
      BuildAfter(scans, preds).extra == if BecomesFilter(preds, n) then part + [preds[n]] else part
  {
    var before, p := preds[..|preds| - 1], preds[|preds| - 1];
    if p.Compare? {
      SameGroupWithBoth(scans, before, p, p.t1, p.t2);
    }
  }

  // ---- When the meaning is kept ----

  /**
    The predicates connect all FROM tables with each other and with no other table, and any predicate about
    tables outside FROM becomes a filter at some place in the list.
   */
  ghost predicate Kept(scans: seq<Name>, preds: seq<Pred>)
    requires scans != []
  {
    && Connected(scans, preds)
    && (forall x :: Linked(PredLinks(preds), scans[0], x) ==> x in scans)
    && forall p :: p in preds && p.Compare? && p.t1 !in scans ==> FiltersSomewhere(preds, p)
  }

  lemma FirstGroup(scans: seq<Name>, preds: seq<Pred>, x: Name)
    requires scans != [] && scans[0] in GroupRep(scans, preds)
    ensures var rep := GroupRep(scans, preds);
      Linked(PredLinks(preds), scans[0], x) <==> x in rep && rep[x] == rep[scans[0]]
  {
    var rep := GroupRep(scans, preds);
    if x in rep {
      SameGroupIffConnected(scans, preds, scans[0], x);
    } else if Linked(PredLinks(preds), scans[0], x) {
      GroupLinks(scans, preds);
      RepDescribesLinks(GroupOps(scans, preds));
      var c :| Trail(PredLinks(preds), c) && c[0] == scans[0] && c[|c| - 1] == x;
      TrailHasOneRepresentative(rep, PredLinks(preds), c);
    }
  }

  /** The tree has no null child exactly when its predicates stay among the FROM tables. */
  lemma CompleteIff(scans: seq<Name>, preds: seq<Pred>, tree: Tree, extra: seq<Pred>)
    requires BuiltFrom(scans, preds, tree, extra)
    ensures Complete(tree) <==> forall x :: Linked(PredLinks(preds), scans[0], x) ==> x in scans
  {
    forall x ensures Linked(PredLinks(preds), scans[0], x) <==>
                     x in GroupRep(scans, preds) && GroupRep(scans, preds)[x] == GroupRep(scans, preds)[scans[0]]
    {
      FirstGroup(scans, preds, x);
    }
  }

  lemma KeptMeansTheQuery(scans: seq<Name>, preds: seq<Pred>, tree: Tree)
    requires scans != [] && Kept(scans, preds) && BuiltFrom(scans, preds, tree, BuildAfter(scans, preds).extra)
    ensures SameMeaning(scans, preds, tree, BuildAfter(scans, preds).extra)
  {
    var extra := BuildAfter(scans, preds).extra;
    CompleteIff(scans, preds, tree, extra);
    TreeCoversFirstComponent(scans, preds, tree, extra);
    forall p | p in preds && p.Compare? ensures p in extra || p in Preds(tree) {
      FirstGroup(scans, preds, p.t1);
      FilterIffLinkedBefore(scans, preds, p);
    }
    forall db, sem, row
      ensures Selects(tree, db, sem, row) && AllHold(extra, sem, row) <==> Answers(scans, preds, db, sem, row)
    {
      SelectsByParts(tree, db, sem, row);
    }
  }

  /** A tree with a null child selects nothing, but the query always has an answer for some data. */
  lemma IncompleteChangesMeaning(scans: seq<Name>, preds: seq<Pred>, tree: Tree, extra: seq<Pred>)
    requires !Complete(tree)
    ensures !SameMeaning(scans, preds, tree, extra)
  {
    var db, sem, row := (t: Name, r: int) => true, (c: string, r: int, s: int) => true, (t: Name) => 0;
    SelectsByParts(tree, db, sem, row);
    assert Answers(scans, preds, db, sem, row);
  }

  /** A tree cannot notice that a table it does not scan is empty. */
  lemma MissingTableChangesMeaning(scans: seq<Name>, preds: seq<Pred>, tree: Tree, extra: seq<Pred>, x: Name)
    requires Complete(tree) && x in scans && x !in Tables(tree)
    ensures !SameMeaning(scans, preds, tree, extra)
  {
    var db, sem, row := (t: Name, r: int) => t != x, (c: string, r: int, s: int) => true, (t: Name) => 0;
    SelectsByParts(tree, db, sem, row);
    assert AllHold(extra, sem, row);
    assert !db(x, row(x)) && !Answers(scans, preds, db, sem, row);
  }

  /** A predicate that is neither in the tree nor a filter is missed when it alone fails. */
  lemma DroppedPredicateChangesMeaning(scans: seq<Name>, preds: seq<Pred>, tree: Tree, extra: seq<Pred>, p: Pred)
    requires Complete(tree) && p in preds && p.Compare? && p !in extra && p !in Preds(tree)
    requires forall q :: q in extra || q in Preds(tree) ==> q.Compare?
    ensures !SameMeaning(scans, preds, tree, extra)
  {
    var row := (t: Name) => if t == p.t1 then 1 else if t == p.t2 then 2 else 0;
    var db := (t: Name, r: int) => true;
    var sem := (c: string, r: int, s: int) => !(c == p.cond && r == row(p.t1) && s == row(p.t2));
    forall q: Pred | q.Compare? ensures Holds(q, sem, row) <==> q != p {
      assert row(q.t1) == row(p.t1) ==> q.t1 == p.t1;
      assert row(q.t2) == row(p.t2) ==> q.t2 == p.t2;
    }
    SelectsByParts(tree, db, sem, row);
    assert AllHold(extra, sem, row);
    assert !Holds(p, sem, row);
  }

  /** The built tree with its filters means the same as the query exactly when `Kept` says so. */
  lemma MeaningKeptIff(scans: seq<Name>, preds: seq<Pred>)
    requires scans != []
    ensures SameMeaning(scans, preds, BuiltTree(scans, preds), BuildAfter(scans, preds).extra) <==> Kept(scans, preds)
  {
    var tree, extra := BuiltTree(scans, preds), BuildAfter(scans, preds).extra;
    FinalTree(scans, preds);
    if Kept(scans, preds) {
      KeptMeansTheQuery(scans, preds, tree);
    } else {
      UnkeptChangesMeaning(scans, preds, tree);
    }
  }

  lemma UnkeptChangesMeaning(scans: seq<Name>, preds: seq<Pred>, tree: Tree)
    requires scans != [] && !Kept(scans, preds) && BuiltFrom(scans, preds, tree, BuildAfter(scans, preds).extra)
    ensures !SameMeaning(scans, preds, tree, BuildAfter(scans, preds).extra)
  {
    var extra := BuildAfter(scans, preds).extra;
    CompleteIff(scans, preds, tree, extra);
    TreeCoversFirstComponent(scans, preds, tree, extra);
    if !Complete(tree) {
      IncompleteChangesMeaning(scans, preds, tree, extra);
    } else if x :| x in scans && !Linked(PredLinks(preds), scans[0], x) {
      MissingTableChangesMeaning(scans, preds, tree, extra, x);
    } else {
      var p :| p in preds && p.Compare? && p.t1 !in scans && !FiltersSomewhere(preds, p);
      FirstGroup(scans, preds, p.t1);
      FilterIffLinkedBefore(scans, preds, p);
      DroppedPredicateChangesMeaning(scans, preds, tree, extra, p);
    }
  }

  /** No predicate mentions a table outside FROM. */
  ghost predicate OnlyScanned(scans: seq<Name>, preds: seq<Pred>) {
    forall p :: p in preds && p.Compare? ==> p.t1 in scans && p.t2 in scans
  }

  /** For queries that name only tables of FROM, being connected is all that counts. */
  lemma ScannedKeptIffConnected(scans: seq<Name>, preds: seq<Pred>)
    requires scans != [] && OnlyScanned(scans, preds)
    ensures Kept(scans, preds) <==> Connected(scans, preds)
  {
    ScansInGroups(scans, preds);
    forall x | Linked(PredLinks(preds), scans[0], x) ensures x in scans {
      FirstGroup(scans, preds, x);
      GroupNames(scans, preds, x);
    }
  }

  /** FROM a, b without predicates: only one of the two tables is scanned. */
  lemma CrossProductLosesTable()
    ensures !SameMeaning(["a", "b"], [], BuiltTree(["a", "b"], []), BuildAfter(["a", "b"], []).extra)
  {
    assert PredLinks([]) == {};
    if Linked({}, "a", "b") {
      var c :| Trail({}, c) && c[0] == "a" && c[|c| - 1] == "b";
      TrailStep({}, c);
    }
    assert "b" in ["a", "b"];
    MeaningKeptIff(["a", "b"], []);
  }

  // ---- The number of filters does not depend on the order of the predicates ----

  lemma {:induction false} ComparisonsByMultiset(preds: seq<Pred>)
    ensures Comparisons(preds) == |preds| - multiset(preds)[Skipped]
  {
    if preds != [] {
      ComparisonsByMultiset(preds[..|preds| - 1]);
      assert preds == preds[..|preds| - 1] + [preds[|preds| - 1]];
    }
  }

  lemma {:induction false} GroupNames(scans: seq<Name>, preds: seq<Pred>, x: Name)
    ensures x in GroupRep(scans, preds) <==>
      x in scans || exists p :: p in preds && p.Compare? && (x == p.t1 || x == p.t2)
  {
    if preds == [] {
      GroupRepOfScans(scans);
    } else {
      var before, p := preds[..|preds| - 1], preds[|preds| - 1];
      assert preds == before + [p];
      GroupNames(scans, before, x);
      if p.Skipped? {
        assert GroupOps(scans, before) + [] == GroupOps(scans, before);
      } else {
        AfterPred(GroupOps(scans, before), p);
        assert p in preds;
      }
    }
  }

  /** The same tables and predicates, in whatever order, give the same number of JOINs and of filters. */
  lemma SplitIsOrderIndependent(scans: seq<Name>, preds: seq<Pred>, scans': seq<Name>, preds': seq<Pred>)
    requires (forall x :: x in scans <==> x in scans') && multiset(preds) == multiset(preds')
    ensures MergesIn(GroupOps(scans, preds)) == MergesIn(GroupOps(scans', preds'))
    ensures |BuildAfter(scans, preds).extra| == |BuildAfter(scans', preds').extra|
  {
    forall p ensures p in preds <==> p in preds' {
      assert p in preds <==> p in multiset(preds);
      assert p in preds' <==> p in multiset(preds');
    }
    forall x ensures x in GroupRep(scans, preds) <==> x in GroupRep(scans', preds') {
      GroupNames(scans, preds, x);
      GroupNames(scans', preds', x);
    }
    assert GroupRep(scans, preds).Keys == GroupRep(scans', preds').Keys;
    assert PredLinks(preds) == PredLinks(preds');
    GroupLinks(scans, preds);
    GroupLinks(scans', preds');
    MergesAreOrderIndependent(GroupOps(scans, preds), GroupOps(scans', preds'));
    ComparisonsByMultiset(preds);
    ComparisonsByMultiset(preds');
    assert |multiset(preds)| == |preds| && |multiset(preds')| == |preds'|;
    FiltersCount(scans, preds);
    FiltersCount(scans', preds');
  }
}
