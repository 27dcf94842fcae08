/**
  Table groups: the disjoint-set union with path compression that decides which join predicates become
  JOIN nodes and which become FILTERs. `rep` is the abstract state, the representative of every name.
 */
module DisjointSets {

  type Name = string

  /** "" is what `find` answers for a name that was never added, so it is not a name itself. */
  const NOT_PRESENT: Name := ""

  // ---- What one call does to the representatives ----

  function AddRep(rep: map<Name, Name>, x: Name): map<Name, Name> {
    if x in rep then rep else rep[x := x]
  }

  predicate Merges(rep: map<Name, Name>, a: Name, b: Name) {
    a in rep && b in rep && rep[a] != rep[b]
  }

  /** The two groups become one, named after the first argument's group. */
  function UniteRep(rep: map<Name, Name>, a: Name, b: Name): map<Name, Name> {
    if Merges(rep, a, b) then map x | x in rep :: if rep[x] == rep[b] then rep[a] else rep[x] else rep
  }

  // ---- The parent forest and what it represents ----

  ghost predicate NodeOk(p: map<Name, Name>, rep: map<Name, Name>, height: map<Name, nat>, x: Name) {
    && x in p && x in rep && x in height
    && p[x] in p && p[x] in rep && p[x] in height
    && rep[x] in p && p[rep[x]] == rep[x]
    && rep[p[x]] == rep[x]
    && (p[x] == x ==> rep[x] == x)
    && (p[x] != x ==> height[p[x]] < height[x])
  }

  /** Following parents goes down in height and ends at the representative. */
  ghost predicate Forest(p: map<Name, Name>, rep: map<Name, Name>, height: map<Name, nat>) {
    && rep.Keys == p.Keys && height.Keys == p.Keys
    && forall x {:trigger NodeOk(p, rep, height, x)} :: x in p ==> NodeOk(p, rep, height, x)
  }

  /** `y` lies on the parent path from `x` (both ends included). */
  ghost predicate OnPath(p: map<Name, Name>, rep: map<Name, Name>, height: map<Name, nat>, x: Name, y: Name)
    requires Forest(p, rep, height) && x in p
    decreases height[x]
  {
    assert NodeOk(p, rep, height, x);
    y == x || (p[x] != x && (assert NodeOk(p, rep, height, p[x]); OnPath(p, rep, height, p[x], y)))
  }

  /** The names on the path from `x` point straight at `r`; all others keep their parent. */
  ghost predicate Compressed(p: map<Name, Name>, rep: map<Name, Name>, height: map<Name, nat>, x: Name, r: Name,
                             p': map<Name, Name>)
    requires Forest(p, rep, height) && x in p
  {
    && p'.Keys == p.Keys
    && forall y {:trigger OnPath(p, rep, height, x, y)} :: y in p ==>
         p'[y] == if OnPath(p, rep, height, x, y) then r else p[y]
  }

  lemma RepresentativeIsRoot(p: map<Name, Name>, rep: map<Name, Name>, height: map<Name, nat>, x: Name)
    requires Forest(p, rep, height) && x in p
    ensures x in rep && rep[x] in p && p[rep[x]] == rep[x] && rep[x] in rep && rep[rep[x]] == rep[x]
  {
    assert NodeOk(p, rep, height, x);
    assert NodeOk(p, rep, height, rep[x]);
  }

  lemma AddKeepsForest(p: map<Name, Name>, rep: map<Name, Name>, height: map<Name, nat>, x: Name)
    requires Forest(p, rep, height) && x !in p
    ensures Forest(p[x := x], rep[x := x], height[x := 0])
  {
    var p', rep', height' := p[x := x], rep[x := x], height[x := 0];
    forall y | y in p' ensures NodeOk(p', rep', height', y) {
      if y != x {
        assert NodeOk(p, rep, height, y);
      }
    }
  }

  lemma CompressKeepsForest(p: map<Name, Name>, rep: map<Name, Name>, height: map<Name, nat>, x: Name)
    requires Forest(p, rep, height) && x in p && p[x] != x && x in rep && rep[x] in height && height[rep[x]] < height[x]
    ensures Forest(p[x := rep[x]], rep, height)
  {
    forall y | y in p ensures NodeOk(p[x := rep[x]], rep, height, y) {
      CompressKeepsNode(p, rep, height, x, y);
    }
  }

  lemma CompressKeepsNode(p: map<Name, Name>, rep: map<Name, Name>, height: map<Name, nat>, x: Name, y: Name)
    requires Forest(p, rep, height) && x in p && p[x] != x && x in rep && rep[x] in height && height[rep[x]] < height[x]
    requires y in p
    ensures NodeOk(p[x := rep[x]], rep, height, y)
  {
    RepresentativeIsRoot(p, rep, height, x);
    assert NodeOk(p, rep, height, y);
  }

  ghost function LiftedHeight(rep: map<Name, Name>, height: map<Name, nat>, ra: Name, rb: Name): map<Name, nat>
    requires rep.Keys == height.Keys && ra in height
  {
    map x | x in rep :: if rep[x] == rb then height[x] + height[ra] + 1 else height[x]
  }

  lemma UniteKeepsForest(p: map<Name, Name>, rep: map<Name, Name>, height: map<Name, nat>, a: Name, b: Name)
    requires Forest(p, rep, height) && a in p && b in p && Merges(rep, a, b)
    ensures rep[a] in p && rep[a] in height
    ensures Forest(p[rep[b] := rep[a]], UniteRep(rep, a, b), LiftedHeight(rep, height, rep[a], rep[b]))
  {
    RepresentativeIsRoot(p, rep, height, a);
    RepresentativeIsRoot(p, rep, height, b);
    var p', rep', height' := p[rep[b] := rep[a]], UniteRep(rep, a, b), LiftedHeight(rep, height, rep[a], rep[b]);
    forall y | y in p' ensures NodeOk(p', rep', height', y) {
      assert NodeOk(p, rep, height, y);
    }
  }

  // ---- The structure ----

  class DSU {
    var p: map<Name, Name>
    ghost var rep: map<Name, Name>
    ghost var height: map<Name, nat>

    ghost predicate Valid()
      reads this
    {
      Forest(p, rep, height) && NOT_PRESENT !in p
    }

    constructor ()
      ensures Valid() && rep == map[] && p == map[]
    {
      p, rep, height := map[], map[], map[];
    }

    method Add(x: Name)
      requires Valid() && x != NOT_PRESENT
      modifies this
      ensures Valid() && rep == AddRep(old(rep), x)
      ensures p == if x in old(p) then old(p) else old(p)[x := x]
    {
      if x !in p {
        AddKeepsForest(p, rep, height, x);
        p, rep, height := p[x := x], rep[x := x], height[x := 0];
      }
    }

    /** The walked path ends up pointing straight at the root, and nothing else changes. */
    method Find(x: Name) returns (r: Name)
      requires Valid()
      modifies this`p
      ensures Valid() && p.Keys == old(p).Keys
      ensures r == if x in rep then rep[x] else NOT_PRESENT
      ensures x in p ==> r in height && height[r] <= height[x]
      ensures x !in p ==> p == old(p)
      ensures x in p ==> Compressed(old(p), rep, height, x, r, p)
      decreases if x in height then height[x] + 1 else 0
    {
      if x !in p {
        return NOT_PRESENT;
      }
      assert NodeOk(p, rep, height, x);
      if p[x] == x {
        return x;
      }
      assert NodeOk(p, rep, height, p[x]);
      r := Find(p[x]);
      CompressKeepsForest(p, rep, height, x) by {
        assert NodeOk(p, rep, height, x);
      }
      p := p[x := r];
      assert forall y :: y in p ==> (OnPath(old(p), rep, height, x, y) <==>
        y == x || OnPath(old(p), rep, height, old(p)[x], y));
    }

    /** True exactly when two different groups were merged; `a`'s group keeps its representative. */
    method Unite(a: Name, b: Name) returns (merged: bool)
      requires Valid()
      modifies this
      ensures Valid() && merged == Merges(old(rep), a, b) && rep == UniteRep(old(rep), a, b)
    {
      var ra := Find(a);
      var rb := Find(b);
      if a in p { RepresentativeIsRoot(p, rep, height, a); }
      if b in p { RepresentativeIsRoot(p, rep, height, b); }
      if ra == NOT_PRESENT || rb == NOT_PRESENT || ra == rb {
        return false;
      }
      UniteKeepsForest(p, rep, height, a, b);
      p, rep, height := p[rb := ra], UniteRep(rep, a, b), LiftedHeight(rep, height, ra, rb);
      return true;
    }
  }

  // ---- Any sequence of calls ----

  datatype Op = Add(x: Name) | Find(x: Name) | Unite(a: Name, b: Name)

  datatype Answer = Done | Found(r: Name) | Merged(yes: bool)

  function RepStep(rep: map<Name, Name>, op: Op): map<Name, Name> {
    match op
    case Add(x) => AddRep(rep, x)
    case Find(_) => rep
    case Unite(a, b) => UniteRep(rep, a, b)
  }

  function AnswerTo(rep: map<Name, Name>, op: Op): Answer {
    match op
    case Add(_) => Done
    case Find(x) => Found(if x in rep then rep[x] else NOT_PRESENT)
    case Unite(a, b) => Merged(Merges(rep, a, b))
  }

  function RepAfter(ops: seq<Op>): map<Name, Name> {
    if ops == [] then map[] else RepStep(RepAfter(ops[..|ops| - 1]), ops[|ops| - 1])
  }

  /** Each call's answer from the groups the calls before it have made. */
  function AnswersTo(ops: seq<Op>): seq<Answer> {
    if ops == [] then []
    else AnswersTo(ops[..|ops| - 1]) + [AnswerTo(RepAfter(ops[..|ops| - 1]), ops[|ops| - 1])]
  }

  method Call(dsu: DSU, op: Op) returns (answer: Answer)
    requires dsu.Valid() && (op.Add? ==> op.x != NOT_PRESENT)
    modifies dsu
    ensures dsu.Valid() && dsu.rep == RepStep(old(dsu.rep), op) && answer == AnswerTo(old(dsu.rep), op)
  {
    match op {
      case Add(x) =>
        dsu.Add(x);
        answer := Done;
      case Find(x) =>
        var r := dsu.Find(x);
        answer := Found(r);
      case Unite(a, b) =>
        var yes := dsu.Unite(a, b);
        answer := Merged(yes);
    }
  }

  method Execute(ops: seq<Op>) returns (dsu: DSU, answers: seq<Answer>)
    requires forall i :: 0 <= i < |ops| && ops[i].Add? ==> ops[i].x != NOT_PRESENT
    ensures fresh(dsu) && dsu.Valid() && dsu.rep == RepAfter(ops)
    ensures answers == AnswersTo(ops)
  {
    dsu := new DSU();
    answers := [];
    for i := 0 to |ops|
      invariant fresh(dsu) && dsu.Valid() && dsu.rep == RepAfter(ops[..i])
      invariant answers == AnswersTo(ops[..i])
    {
      assert ops[..i + 1][..i] == ops[..i];
      var answer := Call(dsu, ops[i]);
      answers := answers + [answer];
    }
    assert ops[..|ops|] == ops;
  }
}
