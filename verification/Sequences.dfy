/**
  What it means that a sequence lists chosen elements of another one in order.
 */
module Sequences {

  ghost predicate Ascending(pos: seq<nat>) {
    forall i, j :: 0 <= i < j < |pos| ==> pos[i] < pos[j]
  }

  ghost predicate Picks<T>(part: seq<T>, all: seq<T>, chosen: set<nat>, pos: seq<nat>) {
    && |pos| == |part| && Ascending(pos)
    && (forall i :: 0 <= i < |pos| ==> pos[i] < |all| && pos[i] in chosen && part[i] == all[pos[i]])
    && forall k :: k in chosen ==> k in pos
  }

  /** `part` lists the elements of `all` at the chosen positions, each once and in the order of `all`. */
  ghost predicate Selected<T>(part: seq<T>, all: seq<T>, chosen: set<nat>) {
    exists pos :: Picks(part, all, chosen, pos)
  }

  lemma NoneSelected<T>()
    ensures Selected<T>([], [], {})
  {
    var none: seq<T> := [];
    assert Picks(none, none, {}, []);
  }

  lemma LeastComesFirst(pos: seq<nat>)
    requires Ascending(pos) && 0 in pos
    ensures pos[0] == 0
  {
    var i :| 0 <= i < |pos| && pos[i] == 0;
    assert forall j :: 0 < j < |pos| ==> pos[0] < pos[j];
  }

  lemma PickAt<T>(part: seq<T>, all: seq<T>, chosen: set<nat>, pos: seq<nat>, i: nat)
    requires Picks(part, all, chosen, pos) && i < |pos|
    ensures i < |part| && pos[i] < |all| && part[i] == all[pos[i]]
  {
  }

  lemma PicksChosen<T>(part: seq<T>, all: seq<T>, chosen: set<nat>, pos: seq<nat>, k: nat)
    requires Picks(part, all, chosen, pos) && k in chosen
    ensures Ascending(pos) && k in pos
  {
  }

  /** If the first position is chosen, the selection starts with the first element. */
  lemma FirstSelected<T>(part: seq<T>, all: seq<T>, chosen: set<nat>)
    requires Selected(part, all, chosen) && 0 in chosen
    ensures |part| > 0 && |all| > 0 && part[0] == all[0]
  {
    var pos :| Picks(part, all, chosen, pos);
    PicksChosen(part, all, chosen, pos, 0);
    LeastComesFirst(pos);
    PickAt(part, all, chosen, pos, 0);
  }

  lemma AscendingNext(pos: seq<nat>, k: nat)
    requires Ascending(pos) && forall i :: 0 <= i < |pos| ==> pos[i] < k
    ensures Ascending(pos + [k])
  {
  }

  /** A list that grows at its end by an element that is chosen. */
  lemma SelectedKeep<T>(part: seq<T>, all: seq<T>, chosen: set<nat>, x: T)
    requires Selected(part, all, chosen)
    ensures Selected(part + [x], all + [x], chosen + {|all|})
  {
    var n := |all|;
    var pos :| Picks(part, all, chosen, pos);
    var pos' := pos + [n];
    AscendingNext(pos, n);
    forall i | 0 <= i < |pos'|
      ensures pos'[i] < n + 1 && pos'[i] in chosen + {n} && (part + [x])[i] == (all + [x])[pos'[i]]
    {
      if i < |pos| {
        assert pos'[i] == pos[i];
      }
    }
    forall k | k in chosen + {n} ensures k in pos' {
      assert k == n || k in pos;
      assert pos'[|pos|] == n;
    }
    assert Picks(part + [x], all + [x], chosen + {n}, pos');
  }

  /** A list that grows at its end by an element that is not chosen. */
  lemma SelectedSkip<T>(part: seq<T>, all: seq<T>, chosen: set<nat>, x: T)
    requires Selected(part, all, chosen)
    ensures Selected(part, all + [x], chosen)
  {
    var pos :| Picks(part, all, chosen, pos);
    forall i | 0 <= i < |pos| ensures pos[i] < |all| + 1 && part[i] == (all + [x])[pos[i]] {
    }
    assert Picks(part, all + [x], chosen, pos);
  }
}
