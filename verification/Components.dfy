/**
  Table groups as graph components. After any sequence of calls two names have the same representative
  exactly when a chain of unite calls links them, and the number of merges is fixed by the graph alone.
 */
module Components {
  import opened DisjointSets

  type Link = (Name, Name)

  ghost predicate Adjacent(links: set<Link>, x: Name, y: Name) {
    (x, y) in links || (y, x) in links
  }

  ghost predicate Trail(links: set<Link>, c: seq<Name>) {
    |c| > 0 && forall i :: 0 <= i < |c| - 1 ==> Adjacent(links, c[i], c[i + 1])
  }

  ghost predicate Linked(links: set<Link>, x: Name, y: Name) {
    exists c :: Trail(links, c) && c[0] == x && c[|c| - 1] == y
  }

  /** The pairs of all unite calls made on names that had been added before the call. */
  ghost function LinksAfter(ops: seq<Op>): set<Link> {
    if ops == [] then {}
    else
      var before := LinksAfter(ops[..|ops| - 1]);
      match ops[|ops| - 1]
      case Unite(a, b) =>
        var rep := RepAfter(ops[..|ops| - 1]);
        if a in rep && b in rep then before + {(a, b)} else before
      case _ => before
  }

  // ---- Linked is an equivalence that grows with the links ----

  lemma LinkedSelf(links: set<Link>, x: Name)
    ensures Linked(links, x, x)
  {
    assert Trail(links, [x]);
  }

  lemma LinkedByLink(links: set<Link>, x: Name, y: Name)
    requires Adjacent(links, x, y)
    ensures Linked(links, x, y)
  {
    assert Trail(links, [x, y]);
  }

  lemma TrailStep(links: set<Link>, c: seq<Name>)
    requires Trail(links, c) && |c| > 1
    ensures Adjacent(links, c[0], c[1])
  {
    assert Adjacent(links, c[0], c[0 + 1]);
  }

  lemma LinkedTransitive(links: set<Link>, x: Name, y: Name, z: Name)
    requires Linked(links, x, y) && Linked(links, y, z)
    ensures Linked(links, x, z)
  {
    var c :| Trail(links, c) && c[0] == x && c[|c| - 1] == y;
    var d :| Trail(links, d) && d[0] == y && d[|d| - 1] == z;
    var e := c + d[1..];
    forall i | 0 <= i < |e| - 1 ensures Adjacent(links, e[i], e[i + 1]) {
      if i >= |c| - 1 {
        assert e[i] == d[i - |c| + 1] && e[i + 1] == d[i - |c| + 2];
      }
    }
    assert Trail(links, e);
  }

  lemma {:induction false} LinkedSymmetric(links: set<Link>, x: Name, y: Name)
    requires Linked(links, x, y)
    ensures Linked(links, y, x)
  {
    var c :| Trail(links, c) && c[0] == x && c[|c| - 1] == y;
    var n := |c|;
    var d := seq(n, i requires 0 <= i < n => c[n - 1 - i]);
    forall i | 0 <= i < n - 1 ensures Adjacent(links, d[i], d[i + 1]) {
      assert Adjacent(links, c[n - 2 - i], c[n - 2 - i + 1]);
    }
    assert Trail(links, d);
  }

  lemma LinkedGrows(links: set<Link>, more: set<Link>, x: Name, y: Name)
    requires links <= more && Linked(links, x, y)
    ensures Linked(more, x, y)
  {
    var c :| Trail(links, c) && c[0] == x && c[|c| - 1] == y;
    assert Trail(more, c);
  }

  /** A merging unite joins exactly two groups, and the first argument's representative stays. */
  lemma UniteMergesExactly(rep: map<Name, Name>, a: Name, b: Name)
    requires Merges(rep, a, b)
    ensures var rep' := UniteRep(rep, a, b);
      && rep'.Keys == rep.Keys && rep'[a] == rep[a] && rep'[b] == rep[a]
      && (forall x :: x in rep && rep[x] != rep[b] ==> rep'[x] == rep[x])
      && forall x, y :: x in rep && y in rep ==>
           (rep'[x] == rep'[y] <==>
             rep[x] == rep[y] || (rep[x] in {rep[a], rep[b]} && rep[y] in {rep[a], rep[b]}))
  {
  }

  // ---- Representatives describe the links ----

  ghost predicate LinksRespected(rep: map<Name, Name>, links: set<Link>) {
    forall l :: l in links ==> l.0 in rep && l.1 in rep && rep[l.0] == rep[l.1]
  }

  ghost predicate LinkedToRepresentative(rep: map<Name, Name>, links: set<Link>) {
    forall x :: x in rep ==> Linked(links, x, rep[x])
  }

  lemma {:induction false} TrailHasOneRepresentative(rep: map<Name, Name>, links: set<Link>, c: seq<Name>)
    requires LinksRespected(rep, links) && Trail(links, c) && c[0] in rep
    ensures c[|c| - 1] in rep && rep[c[|c| - 1]] == rep[c[0]]
  {
    if |c| > 1 {
      assert Adjacent(links, c[0], c[0 + 1]);
      assert (c[0], c[1]) in links || (c[1], c[0]) in links;
      TrailHasOneRepresentative(rep, links, c[1..]);
    }
  }

  lemma UniteKeepsDescription(rep: map<Name, Name>, links: set<Link>, a: Name, b: Name)
    requires LinksRespected(rep, links) && LinkedToRepresentative(rep, links) && a in rep && b in rep
    ensures LinksRespected(UniteRep(rep, a, b), links + {(a, b)})
    ensures LinkedToRepresentative(UniteRep(rep, a, b), links + {(a, b)})
  {
    var rep', links' := UniteRep(rep, a, b), links + {(a, b)};
    forall x | x in rep ensures Linked(links', x, rep'[x]) {
      LinkedGrows(links, links', x, rep[x]);
      if rep'[x] != rep[x] {
        LinkedGrows(links, links', b, rep[b]);
        LinkedSymmetric(links', b, rep[b]);
        LinkedByLink(links', b, a);
        LinkedGrows(links, links', a, rep[a]);
        LinkedTransitive(links', x, rep[b], b);
        LinkedTransitive(links', x, b, a);
        LinkedTransitive(links', x, a, rep[a]);
      }
    }
  }

  lemma {:induction false} RepDescribesLinks(ops: seq<Op>)
    ensures LinksRespected(RepAfter(ops), LinksAfter(ops)) && LinkedToRepresentative(RepAfter(ops), LinksAfter(ops))
  {
    if ops != [] {
      var before, op := ops[..|ops| - 1], ops[|ops| - 1];
      RepDescribesLinks(before);
      var rep, links := RepAfter(before), LinksAfter(before);
      match op {
        case Add(x) => LinkedSelf(links, x);
        case Find(_) =>
        case Unite(a, b) => if a in rep && b in rep { UniteKeepsDescription(rep, links, a, b); }
      }
    }
  }

  /** Path compression refines plain graph connectivity. */
  lemma SameGroupIffLinked(ops: seq<Op>, x: Name, y: Name)
    requires x in RepAfter(ops) && y in RepAfter(ops)
    ensures RepAfter(ops)[x] == RepAfter(ops)[y] <==> Linked(LinksAfter(ops), x, y)
  {
    var rep, links := RepAfter(ops), LinksAfter(ops);
    RepDescribesLinks(ops);
    if Linked(links, x, y) {
      var c :| Trail(links, c) && c[0] == x && c[|c| - 1] == y;
      TrailHasOneRepresentative(rep, links, c);
    }
    if rep[x] == rep[y] {
      LinkedSymmetric(links, y, rep[y]);
      LinkedTransitive(links, x, rep[x], y);
    }
  }

  // ---- How many unite calls merge ----

  function MergesIn(ops: seq<Op>): nat {
    if ops == [] then 0
    else
      var before, op := ops[..|ops| - 1], ops[|ops| - 1];
      MergesIn(before) + if op.Unite? && Merges(RepAfter(before), op.a, op.b) then 1 else 0
  }

  ghost function GroupOf(names: set<Name>, links: set<Link>, x: Name): set<Name> {
    set y | y in names && Linked(links, x, y)
  }

  ghost function Groups(names: set<Name>, links: set<Link>): set<set<Name>> {
    set x | x in names :: GroupOf(names, links, x)
  }

  ghost predicate Idempotent(rep: map<Name, Name>) {
    forall x :: x in rep ==> rep[x] in rep && rep[rep[x]] == rep[x]
  }

  lemma StepKeepsIdempotent(rep: map<Name, Name>, op: Op)
    requires Idempotent(rep)
    ensures Idempotent(RepStep(rep, op))
  {
    var rep' := RepStep(rep, op);
    forall x | x in rep' ensures rep'[x] in rep' && rep'[rep'[x]] == rep'[x] {
    }
  }

  lemma {:induction false} RepIsIdempotent(ops: seq<Op>)
    ensures Idempotent(RepAfter(ops))
  {
    if ops != [] {
      RepIsIdempotent(ops[..|ops| - 1]);
      StepKeepsIdempotent(RepAfter(ops[..|ops| - 1]), ops[|ops| - 1]);
    }
  }

  lemma UniteDropsOneValue(rep: map<Name, Name>, a: Name, b: Name)
    requires Merges(rep, a, b)
    ensures UniteRep(rep, a, b).Values == rep.Values - {rep[b]}
    ensures |UniteRep(rep, a, b).Values| + 1 == |rep.Values|
  {
    var rep' := UniteRep(rep, a, b);
    forall v | v in rep.Values - {rep[b]} ensures v in rep'.Values {
      var x :| x in rep && rep[x] == v;
      assert rep'[x] == v;
    }
    forall v | v in rep'.Values ensures v in rep.Values - {rep[b]} {
      var x :| x in rep' && rep'[x] == v;
      assert rep[x] in rep.Values && rep[a] in rep.Values;
    }
    assert rep[b] in rep.Values;
  }

  lemma AddGainsOneValue(rep: map<Name, Name>, x: Name)
    requires x !in rep && x !in rep.Values
    ensures |AddRep(rep, x).Values| == |rep.Values| + 1
  {
    var rep' := AddRep(rep, x);
    forall v | v in rep.Values + {x} ensures v in rep'.Values {
      if v == x { assert rep'[x] == v; } else { var y :| y in rep && rep[y] == v; assert rep'[y] == v; }
    }
    assert rep'.Values == rep.Values + {x};
  }

  lemma {:induction false} MergesCount(ops: seq<Op>)
    ensures MergesIn(ops) + |RepAfter(ops).Values| == |RepAfter(ops).Keys|
  {
    if ops != [] {
      var before, op := ops[..|ops| - 1], ops[|ops| - 1];
      var rep := RepAfter(before);
      MergesCount(before);
      RepIsIdempotent(before);
      match op {
        case Add(x) =>
          if x !in rep {
            AddGainsOneValue(rep, x);
            assert RepAfter(ops).Keys == rep.Keys + {x};
          }
        case Find(_) =>
        case Unite(a, b) =>
          if Merges(rep, a, b) {
            UniteDropsOneValue(rep, a, b);
            assert RepAfter(ops).Keys == rep.Keys;
          }
      }
    }
  }

  ghost function Image<T, U>(s: set<T>, f: T -> U): set<U> {
    set x | x in s :: f(x)
  }

  lemma {:induction false} ImageCount<T, U>(s: set<T>, f: T -> U)
    requires forall x, y :: x in s && y in s && f(x) == f(y) ==> x == y
    ensures |Image(s, f)| == |s|
  {
    if s != {} {
      var e :| e in s;
      ImageCount(s - {e}, f);
      assert Image(s, f) == Image(s - {e}, f) + {f(e)};
    }
  }

  lemma ValuesAreFixed(rep: map<Name, Name>, v: Name)
    requires Idempotent(rep) && v in rep.Values
    ensures v in rep && rep[v] == v
  {
    var x :| x in rep && rep[x] == v;
  }

  lemma GroupsAreImages(rep: map<Name, Name>, f: Name -> set<Name>)
    requires forall v :: v in rep.Values ==> v in rep
    requires forall x :: x in rep ==> f(x) == f(rep[x])
    requires forall v, w :: v in rep.Values && w in rep.Values && f(v) == f(w) ==> v == w
    ensures |Image(rep.Keys, f)| == |rep.Values|
  {
    var groups, image := Image(rep.Keys, f), Image(rep.Values, f);
    forall g | g in groups ensures g in image {
      var x :| x in rep.Keys && g == f(x);
      assert rep[x] in rep.Values;
    }
    forall g | g in image ensures g in groups {
      var v :| v in rep.Values && g == f(v);
      assert v in rep.Keys;
    }
    assert groups == image;
    ImageCount(rep.Values, f);
  }

  lemma GroupsByRepresentative(ops: seq<Op>)
    ensures |Groups(RepAfter(ops).Keys, LinksAfter(ops))| == |RepAfter(ops).Values|
  {
    var rep, links := RepAfter(ops), LinksAfter(ops);
    var f: Name -> set<Name> := x => GroupOf(rep.Keys, links, x);
    RepIsIdempotent(ops);
    forall v | v in rep.Values ensures v in rep && rep[v] == v {
      ValuesAreFixed(rep, v);
    }
    forall x | x in rep ensures f(x) == f(rep[x]) {
      SameGroupExactly(ops, x, rep[x]);
    }
    forall v, w | v in rep.Values && w in rep.Values && f(v) == f(w) ensures v == w {
      SameGroupExactly(ops, v, w);
    }
    GroupsAreImages(rep, f);
    assert Groups(rep.Keys, links) == Image(rep.Keys, f);
  }

  lemma SameGroupExactly(ops: seq<Op>, x: Name, y: Name)
    requires x in RepAfter(ops) && y in RepAfter(ops)
    ensures var names, links := RepAfter(ops).Keys, LinksAfter(ops);
      GroupOf(names, links, x) == GroupOf(names, links, y) <==> RepAfter(ops)[x] == RepAfter(ops)[y]
  {
    var rep, links := RepAfter(ops), LinksAfter(ops);
    forall z | z in rep
      ensures z in GroupOf(rep.Keys, links, x) <==> rep[x] == rep[z]
      ensures z in GroupOf(rep.Keys, links, y) <==> rep[y] == rep[z]
    {
      SameGroupIffLinked(ops, x, z);
      SameGroupIffLinked(ops, y, z);
    }
    assert y in GroupOf(rep.Keys, links, y);
  }

  /** The number of unite calls that return true is the number of names minus the number of components. */
  lemma MergesAreNamesMinusGroups(ops: seq<Op>)
    ensures MergesIn(ops) == |RepAfter(ops).Keys| - |Groups(RepAfter(ops).Keys, LinksAfter(ops))|
  {
    MergesCount(ops);
    GroupsByRepresentative(ops);
  }

  /** So the split into merging and non-merging calls has the same size in whatever order the calls come. */
  lemma MergesAreOrderIndependent(ops: seq<Op>, ops': seq<Op>)
    requires RepAfter(ops).Keys == RepAfter(ops').Keys && LinksAfter(ops) == LinksAfter(ops')
    ensures MergesIn(ops) == MergesIn(ops')
  {
    MergesAreNamesMinusGroups(ops);
    MergesAreNamesMinusGroups(ops');
  }
}
