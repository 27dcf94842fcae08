/**
  Iteration over a map in the order of its keys, as the server iterates over its lists of clients.
 */
module KeyOrder {

  lemma AnyOf<T>(s: set<T>) returns (x: T)
    requires s != {}
    ensures x in s
  {
    x :| x in s;
  }

  lemma {:induction false} HasLeast(s: set<int>)
    requires s != {}
    ensures exists k :: k in s && forall x :: x in s ==> k <= x
  {
    var e := AnyOf(s);
    var rest := s - {e};
    assert forall x :: x in s ==> x == e || x in rest;
    if rest != {} {
      HasLeast(rest);
      var k :| k in rest && forall x :: x in rest ==> k <= x;
      var least := if k < e then k else e;
      assert least in s && forall x :: x in s ==> least <= x;
    }
  }

  function Least(s: set<int>): (k: int)
    requires s != {}
    ensures k in s && forall x :: x in s ==> k <= x
  {
    HasLeast(s);
    var k :| k in s && forall x :: x in s ==> k <= x;
    k
  }

  function KeysInOrder(s: set<int>): seq<int>
    decreases |s|
  {
    if s == {} then [] else [Least(s)] + KeysInOrder(s - {Least(s)})
  }

  ghost predicate InOrder(keys: seq<int>, s: set<int>) {
    && (forall x :: x in keys <==> x in s)
    && forall i, j :: 0 <= i < j < |keys| ==> keys[i] < keys[j]
  }

  /** Every key once, in ascending order. */
  lemma {:induction false} KeysAreInOrder(s: set<int>)
    ensures InOrder(KeysInOrder(s), s)
    decreases |s|
  {
    if s != {} {
      KeysAreInOrder(s - {Least(s)});
      LeastFirst(s, Least(s), KeysInOrder(s - {Least(s)}));
    }
  }

  lemma LeastFirst(s: set<int>, k: int, keys: seq<int>)
    requires k in s && (forall x :: x in s ==> k <= x) && InOrder(keys, s - {k})
    ensures InOrder([k] + keys, s)
  {
    forall i | 0 <= i < |keys| ensures k < keys[i] {
      assert keys[i] in keys;
    }
    assert forall x :: x in s <==> x == k || x in s - {k};
  }

  lemma NextKey(keys: seq<int>, s: set<int>, k: nat)
    requires InOrder(keys, s) && k < |keys|
    ensures keys[k] in s && keys[k] !in keys[..k] && keys[..k + 1] == keys[..k] + [keys[k]]
  {
    assert keys[k] in keys;
  }
}
