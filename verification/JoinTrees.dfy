/**
  The join tree built from the FROM tables and the join predicates: a predicate between two groups
  becomes a JOIN of their subtrees, any other becomes an extra filter. Throughout, each group's subtree
  holds the group's tables, and every predicate sits in its group's subtree or among the filters.
 */
module JoinTrees {
  import opened DisjointSets
  import opened Components

  /** `Skipped` is a predicate that is null, has not two columns or no comparison; `cond` is opaque. */
  datatype Pred = Skipped | Compare(t1: Name, t2: Name, cond: string)

  /** `NoTree` is the null child that a table outside FROM leaves in a JOIN. */
  datatype Tree = NoTree | Scan(table: Name) | Join(pred: Pred, left: Tree, right: Tree)

  datatype Outcome = Built(tree: Tree) | Thrown(reason: string)

  predicate UnknownTable(p: Pred) {
    p.Compare? && (p.t1 == NOT_PRESENT || p.t2 == NOT_PRESENT)
  }

  function Tables(t: Tree): set<Name> {
    match t
    case NoTree => {}
    case Scan(x) => {x}
    case Join(_, l, r) => Tables(l) + Tables(r)
  }

  function Preds(t: Tree): set<Pred> {
    match t
    case Join(p, l, r) => {p} + Preds(l) + Preds(r)
    case _ => {}
  }

  predicate Complete(t: Tree) {
    match t
    case NoTree => false
    case Scan(_) => true
    case Join(_, l, r) => Complete(l) && Complete(r)
  }

  // ---- The groups the predicates make ----

  function PredOps(p: Pred): seq<Op> {
    match p
    case Skipped => []
    case Compare(t1, t2, _) => [Op.Add(t1), Op.Add(t2), Op.Unite(t1, t2)]
  }

  function AddOps(scans: seq<Name>): seq<Op> {
    seq(|scans|, i requires 0 <= i < |scans| => Op.Add(scans[i]))
  }

  function GroupOps(scans: seq<Name>, preds: seq<Pred>): seq<Op> {
    if preds == [] then AddOps(scans)
    else GroupOps(scans, preds[..|preds| - 1]) + PredOps(preds[|preds| - 1])
  }

  function GroupRep(scans: seq<Name>, preds: seq<Pred>): map<Name, Name> {
    RepAfter(GroupOps(scans, preds))
  }

  function AddBoth(rep: map<Name, Name>, p: Pred): map<Name, Name>
    requires p.Compare?
  {
    AddRep(AddRep(rep, p.t1), p.t2)
  }

  lemma AfterOne(ops: seq<Op>, op: Op)
    ensures RepAfter(ops + [op]) == RepStep(RepAfter(ops), op)
    ensures MergesIn(ops + [op]) == MergesIn(ops) + if op.Unite? && Merges(RepAfter(ops), op.a, op.b) then 1 else 0
    ensures LinksAfter(ops + [op]) == LinksAfter(ops) +
      if op.Unite? && op.a in RepAfter(ops) && op.b in RepAfter(ops) then {(op.a, op.b)} else {}
  {
    assert (ops + [op])[..|ops|] == ops;
  }

  lemma AfterPred(ops: seq<Op>, p: Pred)
    requires p.Compare?
    ensures RepAfter(ops + PredOps(p)) == UniteRep(AddBoth(RepAfter(ops), p), p.t1, p.t2)
    ensures MergesIn(ops + PredOps(p)) == MergesIn(ops) + if Merges(AddBoth(RepAfter(ops), p), p.t1, p.t2) then 1 else 0
    ensures LinksAfter(ops + PredOps(p)) == LinksAfter(ops) + {(p.t1, p.t2)}
  {
    var both := ops + [Op.Add(p.t1)] + [Op.Add(p.t2)];
    assert ops + PredOps(p) == both + [Op.Unite(p.t1, p.t2)];
    AfterBoth(ops, p);
    AfterOne(both, Op.Unite(p.t1, p.t2));
  }

  lemma AfterBoth(ops: seq<Op>, p: Pred)
    requires p.Compare?
    ensures var both := ops + [Op.Add(p.t1)] + [Op.Add(p.t2)];
      && RepAfter(both) == AddBoth(RepAfter(ops), p)
      && MergesIn(both) == MergesIn(ops) && LinksAfter(both) == LinksAfter(ops)
  {
    AfterOne(ops, Op.Add(p.t1));
    AfterOne(ops + [Op.Add(p.t1)], Op.Add(p.t2));
  }

  lemma {:induction false} GroupRepOfScans(scans: seq<Name>)
    ensures GroupRep(scans, []) == map x | x in scans :: x
  {
    if scans != [] {
      var before := scans[..|scans| - 1];
      GroupRepOfScans(before);
      assert AddOps(scans)[..|scans| - 1] == AddOps(before);
      assert scans == before + [scans[|scans| - 1]];
    }
  }

  // ---- What the subtrees hold ----

  function At(tree: map<Name, Tree>, r: Name): Tree {
    if r in tree then tree[r] else NoTree
  }

  /** The subtree of a group holds the group's scanned tables, and a null iff some table is not scanned. */
  ghost predicate SubtreeOk(rep: map<Name, Name>, scans: set<Name>, t: Tree, r: Name) {
    && Tables(t) == (set x | x in scans && x in rep && rep[x] == r)
    && (Complete(t) <==> forall x :: x in rep && rep[x] == r ==> x in scans)
    && (forall p :: p in Preds(t) ==> p.Compare? && p.t1 in rep && p.t2 in rep && rep[p.t1] == r && rep[p.t2] == r)
  }

  ghost predicate IsRoot(rep: map<Name, Name>, r: Name) {
    r in rep && rep[r] == r
  }

  ghost predicate SubtreesOk(rep: map<Name, Name>, scans: set<Name>, tree: map<Name, Tree>) {
    && scans <= rep.Keys
    && (forall r :: IsRoot(rep, r) ==> SubtreeOk(rep, scans, At(tree, r), r))
    && (forall r :: r in tree ==> IsRoot(rep, r))
  }

  /** Every comparison so far sits in the subtree of its group or among the filters, and nothing else does. */
  ghost predicate PredsPlaced(rep: map<Name, Name>, tree: map<Name, Tree>, extra: seq<Pred>, preds: seq<Pred>) {
    && (forall p :: p in preds && p.Compare? ==>
         p.t1 in rep && p.t2 in rep && (p in extra || p in Preds(At(tree, rep[p.t1]))))
    && (forall p :: p in extra ==> p in preds && p.Compare?)
    && (forall r, p :: r in tree && p in Preds(tree[r]) ==> p in preds)
  }

  ghost predicate Progress(rep: map<Name, Name>, scans: set<Name>, tree: map<Name, Tree>, extra: seq<Pred>,
                           preds: seq<Pred>)
  {
    Idempotent(rep) && SubtreesOk(rep, scans, tree) && PredsPlaced(rep, tree, extra, preds)
  }

  lemma ScansProgress(rep: map<Name, Name>, scans: set<Name>, tree: map<Name, Tree>)
    requires rep == (map x | x in scans :: x) && tree == (map x | x in scans :: Scan(x))
    ensures Progress(rep, scans, tree, [], [])
  {
  }

  lemma AddKeepsSubtrees(rep: map<Name, Name>, scans: set<Name>, tree: map<Name, Tree>, x: Name)
    requires SubtreesOk(rep, scans, tree) && forall y :: y in rep ==> rep[y] in rep
    ensures SubtreesOk(AddRep(rep, x), scans, tree)
  {
    if x !in rep {
      var rep' := AddRep(rep, x);
      forall r | IsRoot(rep', r) ensures SubtreeOk(rep', scans, At(tree, r), r) {
        AddKeepsSubtree(rep, scans, tree, x, r);
      }
    }
  }

  lemma AddKeepsSubtree(rep: map<Name, Name>, scans: set<Name>, tree: map<Name, Tree>, x: Name, r: Name)
    requires SubtreesOk(rep, scans, tree) && (forall y :: y in rep ==> rep[y] in rep)
    requires x !in rep && IsRoot(AddRep(rep, x), r)
    ensures SubtreeOk(AddRep(rep, x), scans, At(tree, r), r)
  {
    var rep' := AddRep(rep, x);
    if r != x {
      assert IsRoot(rep, r);
      assert forall y :: y in rep && rep[y] == r ==> rep'[y] == r;
    } else {
      assert !IsRoot(rep, x) && x !in tree && rep'[x] == x && x !in scans;
    }
  }

  lemma AddKeepsProgress(rep: map<Name, Name>, scans: set<Name>, tree: map<Name, Tree>, extra: seq<Pred>,
                         preds: seq<Pred>, x: Name)
    requires Progress(rep, scans, tree, extra, preds)
    ensures Progress(AddRep(rep, x), scans, tree, extra, preds)
  {
    AddKeepsSubtrees(rep, scans, tree, x);
    StepKeepsIdempotent(rep, Op.Add(x));
  }

  /** Where a comparison goes, given the groups with its tables added. */
  function PlacedTree(rep: map<Name, Name>, tree: map<Name, Tree>, p: Pred): map<Name, Tree>
    requires p.Compare? && p.t1 in rep && p.t2 in rep
  {
    if rep[p.t1] == rep[p.t2] then tree
    else (tree - {rep[p.t1]} - {rep[p.t2]})[rep[p.t1] := Join(p, At(tree, rep[p.t1]), At(tree, rep[p.t2]))]
  }

  function PlacedExtra(rep: map<Name, Name>, extra: seq<Pred>, p: Pred): seq<Pred>
    requires p.Compare? && p.t1 in rep && p.t2 in rep
  {
    if rep[p.t1] == rep[p.t2] then extra + [p] else extra
  }

  datatype Build = Build(tree: map<Name, Tree>, extra: seq<Pred>)

  function BuildAfter(scans: seq<Name>, preds: seq<Pred>): Build {
    if preds == [] then Build(map x | x in scans :: Scan(x), [])
    else
      var before, p := BuildAfter(scans, preds[..|preds| - 1]), preds[|preds| - 1];
      if p.Skipped? then before
      else
        var rep := AddBoth(GroupRep(scans, preds[..|preds| - 1]), p);
        Build(PlacedTree(rep, before.tree, p), PlacedExtra(rep, before.extra, p))
  }

  lemma JoinedSubtreeOk(rep: map<Name, Name>, scans: set<Name>, left: Tree, right: Tree, p: Pred)
    requires p.Compare? && Merges(rep, p.t1, p.t2)
    requires SubtreeOk(rep, scans, left, rep[p.t1]) && SubtreeOk(rep, scans, right, rep[p.t2])
    ensures SubtreeOk(UniteRep(rep, p.t1, p.t2), scans, Join(p, left, right), rep[p.t1])
  {
    var r1, r2, rep' := rep[p.t1], rep[p.t2], UniteRep(rep, p.t1, p.t2);
    assert forall x :: x in rep ==> (rep'[x] == r1 <==> rep[x] == r1 || rep[x] == r2);
  }

  lemma OtherSubtreeOk(rep: map<Name, Name>, scans: set<Name>, t: Tree, p: Pred, r: Name)
    requires p.Compare? && Merges(rep, p.t1, p.t2) && r != rep[p.t1] && r != rep[p.t2]
    requires SubtreeOk(rep, scans, t, r)
    ensures SubtreeOk(UniteRep(rep, p.t1, p.t2), scans, t, r)
  {
    var rep' := UniteRep(rep, p.t1, p.t2);
    assert forall x :: x in rep ==> (rep'[x] == r <==> rep[x] == r);
  }

  lemma JoinKeepsSubtrees(rep: map<Name, Name>, scans: set<Name>, tree: map<Name, Tree>, p: Pred)
    requires SubtreesOk(rep, scans, tree) && p.Compare? && Merges(rep, p.t1, p.t2)
    requires IsRoot(rep, rep[p.t1]) && IsRoot(rep, rep[p.t2])
    ensures SubtreesOk(UniteRep(rep, p.t1, p.t2), scans, PlacedTree(rep, tree, p))
  {
    var r1, r2 := rep[p.t1], rep[p.t2];
    var rep', tree' := UniteRep(rep, p.t1, p.t2), PlacedTree(rep, tree, p);
    forall r | IsRoot(rep', r) ensures SubtreeOk(rep', scans, At(tree', r), r) {
      if r == r1 {
        JoinedSubtreeOk(rep, scans, At(tree, r1), At(tree, r2), p);
      } else {
        assert IsRoot(rep, r) && r != r2;
        OtherSubtreeOk(rep, scans, At(tree, r), p, r);
      }
    }
    forall r | r in tree' ensures IsRoot(rep', r) {
      assert r == r1 || IsRoot(rep, r);
    }
  }

  lemma JoinPlacesPred(rep: map<Name, Name>, tree: map<Name, Tree>, extra: seq<Pred>, preds: seq<Pred>, p: Pred)
    requires PredsPlaced(rep, tree, extra, preds) && p.Compare? && Merges(rep, p.t1, p.t2)
    ensures PredsPlaced(UniteRep(rep, p.t1, p.t2), PlacedTree(rep, tree, p), extra, preds + [p])
  {
    var r1, r2 := rep[p.t1], rep[p.t2];
    var rep', tree' := UniteRep(rep, p.t1, p.t2), PlacedTree(rep, tree, p);
    assert Preds(At(tree', r1)) == {p} + Preds(At(tree, r1)) + Preds(At(tree, r2));
    forall q | q in preds + [p] && q.Compare?
      ensures q.t1 in rep' && q.t2 in rep' && (q in extra || q in Preds(At(tree', rep'[q.t1])))
    {
      assert q != p ==> q in preds;
    }
    forall r, q | r in tree' && q in Preds(tree'[r]) ensures q in preds + [p] {
      if r == r1 {
        assert q == p || q in Preds(At(tree, r1)) || q in Preds(At(tree, r2));
      }
    }
  }

  lemma PlaceKeepsProgress(rep: map<Name, Name>, scans: set<Name>, tree: map<Name, Tree>, extra: seq<Pred>,
                           preds: seq<Pred>, p: Pred)
    requires Progress(rep, scans, tree, extra, preds) && p.Compare? && p.t1 in rep && p.t2 in rep
    ensures var rep', tree', extra' := UniteRep(rep, p.t1, p.t2), PlacedTree(rep, tree, p), PlacedExtra(rep, extra, p);
      Progress(rep', scans, tree', extra', preds + [p])
  {
    StepKeepsIdempotent(rep, Op.Unite(p.t1, p.t2));
    if Merges(rep, p.t1, p.t2) {
      JoinKeepsSubtrees(rep, scans, tree, p);
      JoinPlacesPred(rep, tree, extra, preds, p);
    } else {
      FilterPlacesPred(rep, tree, extra, preds, p);
    }
  }

  lemma FilterPlacesPred(rep: map<Name, Name>, tree: map<Name, Tree>, extra: seq<Pred>, preds: seq<Pred>, p: Pred)
    requires PredsPlaced(rep, tree, extra, preds) && p.Compare? && p.t1 in rep && p.t2 in rep
    ensures PredsPlaced(rep, tree, extra + [p], preds + [p])
  {
  }

  // ---- Building ----

  /** What a finished build guarantees, in terms of the groups the predicates make. */
  ghost predicate BuiltFrom(scans: seq<Name>, preds: seq<Pred>, tree: Tree, extra: seq<Pred>) {
    var rep := GroupRep(scans, preds);
    && scans != [] && scans[0] in rep
    && (set x | x in scans) <= rep.Keys
    && SubtreeOk(rep, (set x | x in scans), tree, rep[scans[0]])
    && (forall p :: p in preds && p.Compare? ==> p.t1 in rep && p.t2 in rep)
    && (forall p :: p in preds && p.Compare? && rep[p.t1] == rep[scans[0]] ==> p in extra || p in Preds(tree))
    && (forall p :: p in extra || p in Preds(tree) ==> p in preds && p.Compare?)
  }

  /** The tree of the first table's group. */
  function BuiltTree(scans: seq<Name>, preds: seq<Pred>): Tree
    requires scans != []
  {
    ScansInGroups(scans, preds);
    At(BuildAfter(scans, preds).tree, GroupRep(scans, preds)[scans[0]])
  }

  /** How many predicates are not skipped. */
  function Comparisons(preds: seq<Pred>): nat {
    if preds == [] then 0
    else Comparisons(preds[..|preds| - 1]) + if preds[|preds| - 1].Compare? then 1 else 0
  }

  lemma UniteRepresentatives(rep: map<Name, Name>, a: Name, b: Name)
    requires a in rep && b in rep && IsRoot(rep, rep[a]) && IsRoot(rep, rep[b])
    ensures UniteRep(rep, rep[a], rep[b]) == UniteRep(rep, a, b)
  {
  }

  method FindGroups(dsu: DSU, p: Pred) returns (r1: Name, r2: Name)
    requires dsu.Valid() && p.Compare? && !UnknownTable(p)
    modifies dsu
    ensures dsu.Valid() && dsu.rep == AddBoth(old(dsu.rep), p)
    ensures r1 == dsu.rep[p.t1] && r2 == dsu.rep[p.t2] && IsRoot(dsu.rep, r1) && IsRoot(dsu.rep, r2)
  {
    dsu.Add(p.t1);
    dsu.Add(p.t2);
    r1 := dsu.Find(p.t1);
    r2 := dsu.Find(p.t2);
    RepresentativeIsRoot(dsu.p, dsu.rep, dsu.height, p.t1);
    RepresentativeIsRoot(dsu.p, dsu.rep, dsu.height, p.t2);
  }

  /** Merging two groups by their representatives keeps the first one's. */
  method MergeGroups(dsu: DSU, r1: Name, r2: Name) returns (rep: Name)
    requires dsu.Valid() && IsRoot(dsu.rep, r1) && IsRoot(dsu.rep, r2)
    modifies dsu
    ensures dsu.Valid() && dsu.rep == UniteRep(old(dsu.rep), r1, r2) && rep == r1
  {
    var merged := dsu.Unite(r1, r2);
    rep := dsu.Find(r1);
  }

  /** Handles one comparison: JOINs two subtrees or adds a filter. */
  method PlaceComparison(dsu: DSU, tree: map<Name, Tree>, extra: seq<Pred>, p: Pred)
    returns (tree': map<Name, Tree>, extra': seq<Pred>)
    requires dsu.Valid() && p.Compare? && !UnknownTable(p)
    modifies dsu
    ensures dsu.Valid()
    ensures var rep := AddBoth(old(dsu.rep), p);
      && dsu.rep == UniteRep(rep, p.t1, p.t2)
      && tree' == PlacedTree(rep, tree, p)
      && extra' == PlacedExtra(rep, extra, p)
  {
    var r1, r2 := FindGroups(dsu, p);
    if r1 == r2 {
      return tree, extra + [p];
    }
    UniteRepresentatives(dsu.rep, p.t1, p.t2);
    var join := Join(p, At(tree, r1), At(tree, r2));
    var rep := MergeGroups(dsu, r1, r2);
    tree' := (tree - {r1} - {r2})[rep := join];
    extra' := extra;
  }

  lemma ScansExtend(scans: seq<Name>, x: Name)
    ensures (map y | y in scans + [x] :: y) == AddRep(map y | y in scans :: y, x)
    ensures (map y | y in scans + [x] :: Scan(y)) == (map y | y in scans :: Scan(y))[x := Scan(x)]
  {
  }

  method RegisterScans(scans: seq<Name>) returns (dsu: DSU, tree: map<Name, Tree>)
    requires forall i :: 0 <= i < |scans| ==> scans[i] != NOT_PRESENT
    ensures fresh(dsu) && dsu.Valid() && dsu.rep == GroupRep(scans, [])
    ensures tree == BuildAfter(scans, []).tree
  {
    dsu := new DSU();
    tree := map[];
    for i := 0 to |scans|
      invariant dsu.Valid() && fresh(dsu)
      invariant dsu.rep == map x | x in scans[..i] :: x
      invariant tree == map x | x in scans[..i] :: Scan(x)
    {
      assert scans[..i + 1] == scans[..i] + [scans[i]];
      ScansExtend(scans[..i], scans[i]);
      dsu.Add(scans[i]);
      tree := tree[scans[i] := Scan(scans[i])];
    }
    assert scans[..|scans|] == scans;
    GroupRepOfScans(scans);
  }

  /** The representative of the first table; the later look-ups only compress paths. */
  method FinalGroup(dsu: DSU, scans: seq<Name>) returns (rep: Name)
    requires dsu.Valid() && scans != [] && forall i :: 0 <= i < |scans| ==> scans[i] in dsu.rep
    modifies dsu
    ensures dsu.Valid() && dsu.rep == old(dsu.rep) && rep == dsu.rep[scans[0]]
  {
    rep := NOT_PRESENT;
    for i := 0 to |scans|
      invariant dsu.Valid() && dsu.rep == old(dsu.rep)
      invariant rep == if i == 0 then NOT_PRESENT else dsu.rep[scans[0]]
    {
      var r := dsu.Find(scans[i]);
      RepresentativeIsRoot(dsu.p, dsu.rep, dsu.height, scans[0]);
      if rep == NOT_PRESENT {
        rep := r;
      }
    }
  }

  /** What the `i`-th predicate adds to the groups and to the build. */
  lemma NextPred(scans: seq<Name>, preds: seq<Pred>, i: nat)
    requires i < |preds|
    ensures var p, rep, b := preds[i], GroupRep(scans, preds[..i]), BuildAfter(scans, preds[..i]);
      if p.Skipped? then GroupRep(scans, preds[..i + 1]) == rep && BuildAfter(scans, preds[..i + 1]) == b
      else
        var both := AddBoth(rep, p);
        && GroupRep(scans, preds[..i + 1]) == UniteRep(both, p.t1, p.t2)
        && BuildAfter(scans, preds[..i + 1]) == Build(PlacedTree(both, b.tree, p), PlacedExtra(both, b.extra, p))
  {
    assert preds[..i + 1][..i] == preds[..i];
    if preds[i].Skipped? {
      assert GroupOps(scans, preds[..i]) + [] == GroupOps(scans, preds[..i]);
    } else {
      AfterPred(GroupOps(scans, preds[..i]), preds[i]);
    }
  }

  /** Handles the `i`-th predicate, skipping it if it is no comparison of two columns. */
  method PlacePredicate(dsu: DSU, tree: map<Name, Tree>, extra: seq<Pred>, ghost scans: seq<Name>, preds: seq<Pred>,
                        i: nat)
    returns (tree': map<Name, Tree>, extra': seq<Pred>)
    requires dsu.Valid() && i < |preds| && !UnknownTable(preds[i]) && dsu.rep == GroupRep(scans, preds[..i])
    requires tree == BuildAfter(scans, preds[..i]).tree && extra == BuildAfter(scans, preds[..i]).extra
    modifies dsu
    ensures dsu.Valid() && dsu.rep == GroupRep(scans, preds[..i + 1])
    ensures tree' == BuildAfter(scans, preds[..i + 1]).tree && extra' == BuildAfter(scans, preds[..i + 1]).extra
  {
    NextPred(scans, preds, i);
    if preds[i].Skipped? {
      return tree, extra;
    }
    tree', extra' := PlaceComparison(dsu, tree, extra, preds[i]);
  }

  /** Throws only for an empty FROM or a predicate with an unresolved table name. */
  method BuildJoinTree(scans: seq<Name>, preds: seq<Pred>) returns (outcome: Outcome, extra: seq<Pred>)
    requires forall i :: 0 <= i < |scans| ==> scans[i] != NOT_PRESENT
    ensures scans == [] ==> outcome == Thrown("No tables in FROM")
    ensures scans != [] && (exists i :: 0 <= i < |preds| && UnknownTable(preds[i])) ==>
      outcome == Thrown("Join predicate with unknown table")
    ensures scans != [] && (forall i :: 0 <= i < |preds| ==> !UnknownTable(preds[i])) ==>
      && outcome == Built(BuiltTree(scans, preds)) && extra == BuildAfter(scans, preds).extra
      && BuiltFrom(scans, preds, outcome.tree, extra) && Sided(outcome.tree, (set x | x in scans))
      && |extra| + MergesIn(GroupOps(scans, preds)) == Comparisons(preds)
  {
    extra := [];
    if scans == [] {
      return Thrown("No tables in FROM"), extra;
    }
    var dsu, tree := RegisterScans(scans);
    var n;
    n, tree, extra := PlaceAll(dsu, tree, scans, preds);
    if n < |preds| {
      return Thrown("Join predicate with unknown table"), extra;
    }
    FinalTree(scans, preds);
    outcome := ReturnTree(dsu, tree, scans, preds);
  }

  ghost predicate NoneUnknown(preds: seq<Pred>, n: nat)
    requires n <= |preds|
  {
    forall i :: 0 <= i < n ==> !UnknownTable(preds[i])
  }

  lemma NoneUnknownNext(preds: seq<Pred>, n: nat)
    requires n < |preds| && NoneUnknown(preds, n) && !UnknownTable(preds[n])
    ensures NoneUnknown(preds, n + 1)
  {
  }

  /** The loop over the predicates; it places `n` of them, up to one with an unresolved table name. */
  method PlaceAll(dsu: DSU, scanned: map<Name, Tree>, ghost scans: seq<Name>, preds: seq<Pred>)
    returns (n: nat, tree: map<Name, Tree>, extra: seq<Pred>)
    requires dsu.Valid() && dsu.rep == GroupRep(scans, []) && scanned == BuildAfter(scans, []).tree
    modifies dsu
    ensures dsu.Valid() && n <= |preds| && NoneUnknown(preds, n)
    ensures n < |preds| ==> UnknownTable(preds[n])
    ensures n == |preds| ==> dsu.rep == GroupRep(scans, preds)
    ensures n == |preds| ==> tree == BuildAfter(scans, preds).tree && extra == BuildAfter(scans, preds).extra
  {
    n, tree, extra := 0, scanned, [];
    assert preds[..0] == [] && preds[..|preds|] == preds;
    while n < |preds| && !UnknownTable(preds[n])
      invariant dsu.Valid() && n <= |preds| && dsu.rep == GroupRep(scans, preds[..n])
      invariant NoneUnknown(preds, n)
      invariant tree == BuildAfter(scans, preds[..n]).tree && extra == BuildAfter(scans, preds[..n]).extra
    {
      tree, extra := PlacePredicate(dsu, tree, extra, scans, preds, n);
      NoneUnknownNext(preds, n);
      n := n + 1;
    }
  }

  /** Looks up the tree of the first table's group. */
  method ReturnTree(dsu: DSU, tree: map<Name, Tree>, scans: seq<Name>, ghost preds: seq<Pred>)
    returns (outcome: Outcome)
    requires dsu.Valid() && scans != [] && dsu.rep == GroupRep(scans, preds) && tree == BuildAfter(scans, preds).tree
    requires forall i :: 0 <= i < |scans| ==> scans[i] != NOT_PRESENT
    modifies dsu
    ensures outcome == Built(BuiltTree(scans, preds))
  {
    ScansInGroups(scans, preds);
    var rep := FinalGroup(dsu, scans);
    FinalTree(scans, preds);
    if rep !in tree || tree[rep].NoTree? {
      return Thrown("Internal error: join tree missing");
    }
    outcome := Built(tree[rep]);
  }

  lemma {:induction false} BuildProgress(scans: seq<Name>, preds: seq<Pred>)
    ensures var b := BuildAfter(scans, preds);
      Progress(GroupRep(scans, preds), (set x | x in scans), b.tree, b.extra, preds)
  {
    var tables := set x | x in scans;
    if preds == [] {
      GroupRepOfScans(scans);
      assert (map x | x in scans :: x) == map x | x in tables :: x;
      assert (map x | x in scans :: Scan(x)) == map x | x in tables :: Scan(x);
      ScansProgress(GroupRep(scans, []), tables, BuildAfter(scans, []).tree);
    } else {
      var before, p := preds[..|preds| - 1], preds[|preds| - 1];
      var rep, b := GroupRep(scans, before), BuildAfter(scans, before);
      BuildProgress(scans, before);
      assert preds == before + [p];
      if p.Skipped? {
        SkipKeepsProgress(rep, tables, b.tree, b.extra, before);
        assert GroupOps(scans, before) + [] == GroupOps(scans, before);
      } else {
        AfterPred(GroupOps(scans, before), p);
        AddKeepsProgress(rep, tables, b.tree, b.extra, before, p.t1);
        AddKeepsProgress(AddRep(rep, p.t1), tables, b.tree, b.extra, before, p.t2);
        PlaceKeepsProgress(AddBoth(rep, p), tables, b.tree, b.extra, before, p);
      }
    }
  }

  lemma {:induction false} FiltersCount(scans: seq<Name>, preds: seq<Pred>)
    ensures |BuildAfter(scans, preds).extra| + MergesIn(GroupOps(scans, preds)) == Comparisons(preds)
  {
    if preds == [] {
      NoMergesInAdds(scans);
    } else {
      var before, p := preds[..|preds| - 1], preds[|preds| - 1];
      FiltersCount(scans, before);
      if p.Skipped? {
        assert GroupOps(scans, before) + [] == GroupOps(scans, before);
      } else {
        AfterPred(GroupOps(scans, before), p);
      }
    }
  }

  // ---- Which side a table is on ----

  /** Of every JOIN in the tree the first table of the predicate is on the left, the second on the right. */
  ghost predicate Sided(t: Tree, scans: set<Name>) {
    match t
    case Join(p, l, r) =>
      && (p.Compare? && p.t1 in scans ==> p.t1 in Tables(l))
      && (p.Compare? && p.t2 in scans ==> p.t2 in Tables(r))
      && Sided(l, scans) && Sided(r, scans)
    case _ => true
  }

  lemma PlacedIsSided(rep: map<Name, Name>, scans: set<Name>, tree: map<Name, Tree>, p: Pred)
    requires SubtreesOk(rep, scans, tree) && Idempotent(rep) && p.Compare? && p.t1 in rep && p.t2 in rep
    requires forall r :: Sided(At(tree, r), scans)
    ensures forall r :: Sided(At(PlacedTree(rep, tree, p), r), scans)
  {
    assert IsRoot(rep, rep[p.t1]) && IsRoot(rep, rep[p.t2]);
    assert SubtreeOk(rep, scans, At(tree, rep[p.t1]), rep[p.t1]);
    assert SubtreeOk(rep, scans, At(tree, rep[p.t2]), rep[p.t2]);
    assert Sided(Join(p, At(tree, rep[p.t1]), At(tree, rep[p.t2])), scans);
    forall r ensures Sided(At(PlacedTree(rep, tree, p), r), scans) {
      assert Sided(At(tree, r), scans);
    }
  }

  lemma {:induction false} SidedAfter(scans: seq<Name>, preds: seq<Pred>)
    ensures forall r :: Sided(At(BuildAfter(scans, preds).tree, r), (set x | x in scans))
  {
    if preds != [] {
      var before, p := preds[..|preds| - 1], preds[|preds| - 1];
      var rep, b, tables := GroupRep(scans, before), BuildAfter(scans, before), set x | x in scans;
      SidedAfter(scans, before);
      if p.Compare? {
        BuildProgress(scans, before);
        AddKeepsProgress(rep, tables, b.tree, b.extra, before, p.t1);
        AddKeepsProgress(AddRep(rep, p.t1), tables, b.tree, b.extra, before, p.t2);
        PlacedIsSided(AddBoth(rep, p), tables, b.tree, p);
      }
    }
  }

  lemma ScansInGroups(scans: seq<Name>, preds: seq<Pred>)
    ensures forall i :: 0 <= i < |scans| ==> scans[i] in GroupRep(scans, preds)
  {
    BuildProgress(scans, preds);
    assert forall i :: 0 <= i < |scans| ==> scans[i] in set x | x in scans;
  }

  lemma FinalTree(scans: seq<Name>, preds: seq<Pred>)
    requires scans != []
    ensures var rep, b := GroupRep(scans, preds), BuildAfter(scans, preds);
      && scans[0] in rep && rep[scans[0]] in b.tree && !b.tree[rep[scans[0]]].NoTree?
      && BuiltTree(scans, preds) == b.tree[rep[scans[0]]]
    ensures var b := BuildAfter(scans, preds);
      && BuiltFrom(scans, preds, BuiltTree(scans, preds), b.extra)
      && Sided(BuiltTree(scans, preds), (set x | x in scans))
      && |b.extra| + MergesIn(GroupOps(scans, preds)) == Comparisons(preds)
  {
    var rep, b := GroupRep(scans, preds), BuildAfter(scans, preds);
    BuildProgress(scans, preds);
    SidedAfter(scans, preds);
    FiltersCount(scans, preds);
    FinalSubtree(rep, (set x | x in scans), b.tree, b.extra, preds, scans[0]);
  }

  lemma FinalSubtree(rep: map<Name, Name>, scans: set<Name>, tree: map<Name, Tree>, extra: seq<Pred>,
                     preds: seq<Pred>, t: Name)
    requires Progress(rep, scans, tree, extra, preds) && t in scans
    ensures t in rep && rep[t] in tree && !tree[rep[t]].NoTree?
    ensures SubtreeOk(rep, scans, tree[rep[t]], rep[t])
  {
    assert IsRoot(rep, rep[t]);
    assert t in Tables(At(tree, rep[t]));
  }

  lemma SkipKeepsProgress(rep: map<Name, Name>, scans: set<Name>, tree: map<Name, Tree>, extra: seq<Pred>,
                          preds: seq<Pred>)
    requires Progress(rep, scans, tree, extra, preds)
    ensures Progress(rep, scans, tree, extra, preds + [Skipped])
  {
  }

  lemma {:induction false} NoMergesInAdds(scans: seq<Name>)
    ensures MergesIn(AddOps(scans)) == 0
  {
    if scans != [] {
      assert AddOps(scans)[..|scans| - 1] == AddOps(scans[..|scans| - 1]);
      NoMergesInAdds(scans[..|scans| - 1]);
    }
  }
}
