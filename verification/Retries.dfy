/**
  Whom a failed send removes. A client is looked up by its socket handle, so the first one with that handle in
  key and list order goes. The retry loop as a function of its tries, and exactly when it removes only
  failing or aborted clients.
 */
module Retries {
  import opened KeyOrder
  import opened Registry

  // ---- The first client with a handle ----

  ghost predicate HandlesDiffer(r: Indexes) {
    forall u, v :: u in r.byUuid && v in r.byUuid && r.byUuid[u].handle == r.byUuid[v].handle ==> u == v
  }

  /** With distinct handles a handle identifies the client. */
  lemma SameHandle(r: Indexes, a: ClientInfo, b: ClientInfo)
    requires Consistent(r) && HandlesDiffer(r) && Registered(r, a) && Registered(r, b) && a.handle == b.handle
    ensures a == b
  {
    assert ListOk(r, a.unitType) && ListOk(r, b.unitType);
  }

  /** In key and list order, no client before this place has the handle of the one there. */
  ghost predicate FirstAt(r: Indexes, t: int, i: nat) {
    && t in r.lists && i < |r.lists[t]|
    && forall t', j :: t' in r.lists && 0 <= j < |r.lists[t']| && r.lists[t'][j].handle == r.lists[t][i].handle ==>
         t < t' || (t == t' && i <= j)
  }

  /** No registered client with the handle of `c` comes before it. */
  ghost predicate ComesFirst(r: Indexes, c: ClientInfo) {
    exists i: nat :: FirstAt(r, c.unitType, i) && r.lists[c.unitType][i] == c
  }

  lemma FirstIsUnique(r: Indexes, a: ClientInfo, b: ClientInfo)
    requires ComesFirst(r, a) && ComesFirst(r, b) && a.handle == b.handle
    ensures a == b
  {
    var i: nat :| FirstAt(r, a.unitType, i) && r.lists[a.unitType][i] == a;
    var j: nat :| FirstAt(r, b.unitType, j) && r.lists[b.unitType][j] == b;
    assert r.lists[b.unitType][j].handle == r.lists[a.unitType][i].handle;
  }

  lemma FirstIsIt(r: Indexes, first: ClientInfo, c: ClientInfo)
    requires ComesFirst(r, first) && first.handle == c.handle
    ensures first == c <==> ComesFirst(r, c)
  {
    if ComesFirst(r, c) {
      FirstIsUnique(r, first, c);
    }
  }

  /** With distinct handles every client comes first. */
  lemma DistinctComesFirst(r: Indexes, c: ClientInfo)
    requires Consistent(r) && HandlesDiffer(r) && Registered(r, c)
    ensures ComesFirst(r, c)
  {
    var i :| 0 <= i < |List(r, c.unitType)| && List(r, c.unitType)[i] == c;
    forall t, j | t in r.lists && 0 <= j < |r.lists[t]| && r.lists[t][j].handle == c.handle
      ensures c.unitType == t && i == j
    {
      var d := r.lists[t][j];
      assert ListOk(r, t) && d in List(r, t);
      SameHandle(r, c, d);
    }
    assert FirstAt(r, c.unitType, i);
  }

  /** Two clients on one handle: the one of the lower type shadows the other, and goes when the other fails. */
  lemma SharedHandleShadows(a: ClientInfo, b: ClientInfo)
    requires a.handle == b.handle && a.unitType < b.unitType && a.uuid != b.uuid
    ensures var r := Inserted(Inserted(NO_CLIENTS, a), b);
      Consistent(r) && Registered(r, a) && Registered(r, b) && ComesFirst(r, a) && !ComesFirst(r, b)
  {
    var one := Inserted(NO_CLIENTS, a);
    var r := Inserted(one, b);
    assert forall t :: ListOk(NO_CLIENTS, t);
    InsertKeepsConsistent(NO_CLIENTS, a);
    InsertKeepsConsistent(one, b);
    assert r.lists[a.unitType] == [a] && r.lists[b.unitType] == [b];
    assert r.lists[a.unitType][0].handle == b.handle;
    assert FirstAt(r, a.unitType, 0);
  }

  /** Exactly the clients with these uuids went; the lists of types that lost none are as before. */
  ghost predicate Lost(before: Indexes, after: Indexes, gone: set<nat>) {
    && gone <= before.byUuid.Keys && after.byUuid == before.byUuid - gone
    && forall t {:trigger List(after, t)} :: (forall u :: u in gone ==> before.byUuid[u].unitType != t) ==>
         List(after, t) == List(before, t)
  }

  lemma LoseOne(first: Indexes, r: Indexes, gone: set<nat>, c: ClientInfo)
    requires Consistent(r) && Lost(first, r, gone) && Registered(r, c)
    ensures var r' := Removed(r, c.unitType, c);
      && Lost(first, r', gone + {c.uuid}) && c.uuid in first.byUuid && first.byUuid[c.uuid] == c
      && r'.byUuid.Keys == r.byUuid.Keys - {c.uuid} && c.uuid in r.byUuid
  {
    var r' := Removed(r, c.unitType, c);
    assert ListOk(r, c.unitType) && c in List(r, c.unitType);
    assert r.byUuid[c.uuid] == c;
    assert r'.byUuid == first.byUuid - (gone + {c.uuid});
    forall t | forall u :: u in gone + {c.uuid} ==> first.byUuid[u].unitType != t
      ensures List(r', t) == List(first, t)
    {
      assert first.byUuid[c.uuid].unitType != t;
      assert List(r', t) == List(r, t);
    }
  }

  /** Whoever is gone has the handle of a client of the type that was aborted or whose send failed. */
  ghost predicate Blamed(first: Indexes, aborted: set<ClientInfo>, failed: set<ClientInfo>, t: int, gone: set<nat>) {
    && gone <= first.byUuid.Keys
    && forall u :: u in gone ==> exists v :: Culprit(first, aborted, failed, t, u, v)
  }

  ghost predicate Culprit(first: Indexes, aborted: set<ClientInfo>, failed: set<ClientInfo>, t: int, u: nat, v: nat) {
    && u in first.byUuid && v in first.byUuid
    && var c := first.byUuid[v];
       c.unitType == t && c.handle == first.byUuid[u].handle && (c in failed || c in aborted)
  }

  lemma BlameOne(first: Indexes, aborted: set<ClientInfo>, failed: set<ClientInfo>, t: int, gone: set<nat>,
                 c: ClientInfo, victim: ClientInfo, more: set<ClientInfo>)
    requires Blamed(first, aborted, failed, t, gone) && failed <= more
    requires c in first.byUuid.Values && c.unitType == t && (c in more || c in aborted)
    requires victim.uuid in first.byUuid && first.byUuid[victim.uuid] == victim && victim.handle == c.handle
    ensures Blamed(first, aborted, more, t, gone + {victim.uuid})
  {
    forall u | u in gone + {victim.uuid} ensures exists v :: Culprit(first, aborted, more, t, u, v) {
      if u == victim.uuid {
        var v :| v in first.byUuid && first.byUuid[v] == c;
        assert Culprit(first, aborted, more, t, u, v);
      } else {
        var v :| Culprit(first, aborted, failed, t, u, v);
        assert Culprit(first, aborted, more, t, u, v);
      }
    }
  }

  /** Whoever is gone was itself a client of the type, and aborted or its send failed. */
  ghost predicate OnlyBlamed(first: Indexes, aborted: set<ClientInfo>, failed: set<ClientInfo>, t: int, gone: set<nat>)
  {
    forall u :: u in gone ==>
      u in first.byUuid && first.byUuid[u].unitType == t && (first.byUuid[u] in failed || first.byUuid[u] in aborted)
  }

  /** With distinct handles whoever is gone was itself aborted or failed. */
  lemma DistinctBlame(first: Indexes, aborted: set<ClientInfo>, failed: set<ClientInfo>, t: int, gone: set<nat>)
    requires HandlesDiffer(first) && Blamed(first, aborted, failed, t, gone)
    ensures OnlyBlamed(first, aborted, failed, t, gone)
  {
    forall u | u in gone
      ensures first.byUuid[u].unitType == t && (first.byUuid[u] in failed || first.byUuid[u] in aborted)
    {
      var v :| Culprit(first, aborted, failed, t, u, v);
      assert u == v;
    }
  }

  // ---- Order of clients ----

  ghost predicate Precedes(s: seq<ClientInfo>, d: ClientInfo, c: ClientInfo) {
    exists i, j :: 0 <= i < j < |s| && s[i] == d && s[j] == c
  }

  /** `d` comes before `c` in key and list order. */
  ghost predicate Before(r: Indexes, d: ClientInfo, c: ClientInfo) {
    d.unitType < c.unitType || (d.unitType == c.unitType && Precedes(List(r, c.unitType), d, c))
  }

  lemma {:induction false} LeastIndex(s: seq<ClientInfo>, handle: int, i: nat) returns (k: nat)
    requires i < |s| && s[i].handle == handle
    ensures k <= i && s[k].handle == handle && forall j :: 0 <= j < k ==> s[j].handle != handle
  {
    if j: nat :| j < i && s[j].handle == handle {
      k := LeastIndex(s, handle, j);
    } else {
      k := i;
    }
  }

  lemma FirstExists(r: Indexes, c: ClientInfo) returns (t: int, k: nat)
    requires Consistent(r) && Registered(r, c)
    ensures FirstAt(r, t, k) && r.lists[t][k].handle == c.handle
  {
    var i :| 0 <= i < |List(r, c.unitType)| && List(r, c.unitType)[i] == c;
    var types := set t | t in r.lists && exists j :: 0 <= j < |r.lists[t]| && r.lists[t][j].handle == c.handle;
    assert r.lists[c.unitType][i].handle == c.handle && c.unitType in types;
    t := Least(types);
    var j :| 0 <= j < |r.lists[t]| && r.lists[t][j].handle == c.handle;
    k := LeastIndex(r.lists[t], c.handle, j);
    forall t', m | t' in r.lists && 0 <= m < |r.lists[t']| && r.lists[t'][m].handle == c.handle
      ensures t < t' || (t == t' && k <= m)
    {
      assert t' in types;
    }
  }

  /** The client that goes when a send to `c` fails. */
  ghost function Victim(r: Indexes, c: ClientInfo): (v: ClientInfo)
    requires Consistent(r) && Registered(r, c)
    ensures ComesFirst(r, v) && Registered(r, v) && v.handle == c.handle
  {
    assert exists t: int, k: nat :: FirstAt(r, t, k) && r.lists[t][k].handle == c.handle by {
      var t, k := FirstExists(r, c);
    }
    var t: int, k: nat :| FirstAt(r, t, k) && r.lists[t][k].handle == c.handle;
    FirstIsRegistered(r, t, k);
    r.lists[t][k]
  }

  lemma FirstIsRegistered(r: Indexes, t: int, k: nat)
    requires Consistent(r) && FirstAt(r, t, k)
    ensures var v := r.lists[t][k];
      v.unitType == t && ComesFirst(r, v) && Registered(r, v)
  {
    assert ListOk(r, t) && r.lists[t][k] in List(r, t);
  }

  /** The victim is the client itself or comes before it; no client with the handle comes before the victim. */
  lemma FirstIsBefore(r: Indexes, v: ClientInfo, c: ClientInfo)
    requires Consistent(r) && ComesFirst(r, v) && Registered(r, c) && v.handle == c.handle
    ensures v == c || Before(r, v, c)
  {
    var k: nat :| FirstAt(r, v.unitType, k) && r.lists[v.unitType][k] == v;
    var i :| 0 <= i < |List(r, c.unitType)| && List(r, c.unitType)[i] == c;
    assert r.lists[c.unitType][i].handle == r.lists[v.unitType][k].handle;
  }

  lemma ShadowedIsNotFirst(r: Indexes, d: ClientInfo, c: ClientInfo)
    requires Consistent(r) && Registered(r, d) && d.handle == c.handle && Before(r, d, c)
    ensures !ComesFirst(r, c)
  {
    assert ListOk(r, c.unitType);
    if d.unitType == c.unitType {
      var i, j :| 0 <= i < j < |List(r, c.unitType)| && List(r, c.unitType)[i] == d && List(r, c.unitType)[j] == c;
      assert r.lists[c.unitType][i].handle == c.handle;
    } else {
      var i :| 0 <= i < |List(r, d.unitType)| && List(r, d.unitType)[i] == d;
      assert r.lists[d.unitType][i].handle == c.handle;
    }
  }

  lemma PrecedesWithout(s: seq<ClientInfo>, v: ClientInfo, d: ClientInfo, c: ClientInfo)
    requires NoDuplicates(s) && d != v && c != v
    ensures Precedes(Without(s, v), d, c) <==> Precedes(s, d, c)
  {
    if v !in s {
      WithoutAt(s, v, |s|);
    } else {
      var m :| 0 <= m < |s| && s[m] == v;
      WithoutAt(s, v, m);
      PrecedesSkips(s, m, d, c);
    }
  }

  lemma PrecedesSkips(s: seq<ClientInfo>, m: nat, d: ClientInfo, c: ClientInfo)
    requires m < |s| && d != s[m] && c != s[m]
    ensures Precedes(s[..m] + s[m + 1..], d, c) <==> Precedes(s, d, c)
  {
    var w := s[..m] + s[m + 1..];
    if Precedes(s, d, c) {
      var i, j :| 0 <= i < j < |s| && s[i] == d && s[j] == c;
      var i', j' := if i < m then i else i - 1, if j < m then j else j - 1;
      assert w[i'] == d && w[j'] == c;
    }
    if Precedes(w, d, c) {
      var i, j :| 0 <= i < j < |w| && w[i] == d && w[j] == c;
      var i', j' := if i < m then i else i + 1, if j < m then j else j + 1;
      assert s[i'] == d && s[j'] == c;
    }
  }

  /** Removing another client does not change who comes before whom. */
  lemma RemoveKeepsOrder(r: Indexes, v: ClientInfo, d: ClientInfo, c: ClientInfo)
    requires Consistent(r) && d != v && c != v
    ensures Before(Removed(r, v.unitType, v), d, c) <==> Before(r, d, c)
  {
    if v.unitType == c.unitType {
      assert ListOk(r, c.unitType);
      PrecedesWithout(List(r, c.unitType), v, d, c);
    }
  }

  // ---- The retry loop ----

  /** The position tried and whether the operating system takes the message. */
  datatype Try = Try(idx: nat, delivers: bool)

  /** The indexes after some tries, the clients whose send failed and the uuids removed. */
  datatype Outcome = Outcome(indexes: Indexes, failed: set<ClientInfo>, gone: set<nat>)

  /** A try that fails loses the victim; one that delivers, or has no client at its position, changes nothing. */
  ghost function AfterTry(o: Outcome, aborted: set<ClientInfo>, t: int, try: Try): (o': Outcome)
    requires Consistent(o.indexes)
    ensures Consistent(o'.indexes)
  {
    var r := o.indexes;
    if try.idx < |List(r, t)| && (List(r, t)[try.idx] in aborted || !try.delivers) then
      var c := List(r, t)[try.idx];
      assert ListOk(r, t) && c in List(r, t);
      var v := Victim(r, c);
      RemoveKeepsConsistent(r, v.unitType, v);
      Outcome(Removed(r, v.unitType, v), if try.delivers then o.failed else o.failed + {c}, o.gone + {v.uuid})
    else o
  }

  ghost function AfterTries(first: Indexes, aborted: set<ClientInfo>, t: int, tries: seq<Try>): (o: Outcome)
    requires Consistent(first)
    ensures Consistent(o.indexes)
  {
    if tries == [] then Outcome(first, {}, {})
    else AfterTry(AfterTries(first, aborted, t, tries[..|tries| - 1]), aborted, t, tries[|tries| - 1])
  }

  lemma OneMoreTry(first: Indexes, aborted: set<ClientInfo>, t: int, tries: seq<Try>, try: Try, victim: ClientInfo)
    requires Consistent(first)
    requires var r := AfterTries(first, aborted, t, tries).indexes;
      && try.idx < |List(r, t)| && (List(r, t)[try.idx] in aborted || !try.delivers)
      && ComesFirst(r, victim) && victim.handle == List(r, t)[try.idx].handle
    ensures AfterTries(first, aborted, t, tries + [try]).indexes
      == Removed(AfterTries(first, aborted, t, tries).indexes, victim.unitType, victim)
  {
    var r := AfterTries(first, aborted, t, tries).indexes;
    assert (tries + [try])[..|tries|] == tries;
    assert ListOk(r, t) && List(r, t)[try.idx] in List(r, t);
    FirstIsUnique(r, victim, Victim(r, List(r, t)[try.idx]));
  }

  /** Whatever is tried, only clients of the type are removed that failed or were aborted. */
  ghost predicate AlwaysOnlyBlamed(first: Indexes, aborted: set<ClientInfo>, t: int)
    requires Consistent(first)
  {
    forall tries ::
      var o := AfterTries(first, aborted, t, tries);
      OnlyBlamed(first, aborted, o.failed, t, o.gone)
  }

  /** Whoever comes before a client of the type on the same handle is an aborted client of the type. */
  ghost predicate OnlyAbortedBefore(r: Indexes, aborted: set<ClientInfo>, t: int) {
    forall c, d :: c in List(r, t) && d in r.byUuid.Values && d.handle == c.handle && Before(r, d, c) ==>
      d.unitType == t && d in aborted
  }

  /** What every try keeps: exactly those gone are missing, and each has the handle of a failing or aborted client. */
  lemma TryLoses(first: Indexes, aborted: set<ClientInfo>, t: int, o: Outcome, try: Try)
    requires Consistent(o.indexes) && Lost(first, o.indexes, o.gone) && Blamed(first, aborted, o.failed, t, o.gone)
    ensures var o' := AfterTry(o, aborted, t, try);
      Lost(first, o'.indexes, o'.gone) && Blamed(first, aborted, o'.failed, t, o'.gone)
  {
    var r := o.indexes;
    if try.idx < |List(r, t)| && (List(r, t)[try.idx] in aborted || !try.delivers) {
      var c := List(r, t)[try.idx];
      assert ListOk(r, t) && c in List(r, t);
      var v := Victim(r, c);
      LoseOne(first, r, o.gone, v);
      assert r.byUuid[c.uuid] == c && first.byUuid[c.uuid] == c;
      BlameOne(first, aborted, o.failed, t, o.gone, c, v, if try.delivers then o.failed else o.failed + {c});
    }
  }

  lemma {:induction false} TriesLose(first: Indexes, aborted: set<ClientInfo>, t: int, tries: seq<Try>)
    requires Consistent(first)
    ensures var o := AfterTries(first, aborted, t, tries);
      Lost(first, o.indexes, o.gone) && Blamed(first, aborted, o.failed, t, o.gone)
  {
    if tries != [] {
      var before := tries[..|tries| - 1];
      TriesLose(first, aborted, t, before);
      TryLoses(first, aborted, t, AfterTries(first, aborted, t, before), tries[|tries| - 1]);
    }
  }

  /** The client was tried by the `k`-th try, and the operating system did not take the message. */
  ghost predicate WasTried(first: Indexes, aborted: set<ClientInfo>, t: int, tries: seq<Try>, k: nat, c: ClientInfo)
    requires Consistent(first) && k < |tries|
  {
    var r := AfterTries(first, aborted, t, tries[..k]).indexes;
    !tries[k].delivers && tries[k].idx < |List(r, t)| && List(r, t)[tries[k].idx] == c
  }

  /** Only clients whose send failed count as failed. */
  lemma {:induction false} FailedWereTried(first: Indexes, aborted: set<ClientInfo>, t: int, tries: seq<Try>,
                                           c: ClientInfo)
    returns (k: nat)
    requires Consistent(first) && c in AfterTries(first, aborted, t, tries).failed
    ensures k < |tries| && WasTried(first, aborted, t, tries, k, c)
  {
    var n, before := |tries| - 1, tries[..|tries| - 1];
    if c in AfterTries(first, aborted, t, before).failed {
      k := FailedWereTried(first, aborted, t, before, c);
      assert before[..k] == tries[..k];
    } else {
      k := n;
    }
  }

  lemma RemoveKeepsShadows(r: Indexes, aborted: set<ClientInfo>, t: int, v: ClientInfo)
    requires Consistent(r) && OnlyAbortedBefore(r, aborted, t) && Registered(r, v)
    ensures OnlyAbortedBefore(Removed(r, v.unitType, v), aborted, t)
  {
    var r' := Removed(r, v.unitType, v);
    RemovedIsGone(r, v);
    assert ListOk(r, v.unitType);
    WithoutHolds(List(r, v.unitType), v);
    forall c, d | c in List(r', t) && d in r'.byUuid.Values && d.handle == c.handle && Before(r', d, c)
      ensures d.unitType == t && d in aborted
    {
      assert ListOk(r, t) && c in List(r, t) && c != v && d in r.byUuid.Values && d != v;
      RemoveKeepsOrder(r, v, d, c);
    }
  }

  lemma TryKeepsBlame(first: Indexes, aborted: set<ClientInfo>, t: int, o: Outcome, try: Try)
    requires Consistent(o.indexes) && Lost(first, o.indexes, o.gone) && OnlyAbortedBefore(o.indexes, aborted, t)
    requires OnlyBlamed(first, aborted, o.failed, t, o.gone)
    ensures var o' := AfterTry(o, aborted, t, try);
      OnlyAbortedBefore(o'.indexes, aborted, t) && OnlyBlamed(first, aborted, o'.failed, t, o'.gone)
  {
    var r := o.indexes;
    if try.idx < |List(r, t)| && (List(r, t)[try.idx] in aborted || !try.delivers) {
      var c := List(r, t)[try.idx];
      assert ListOk(r, t) && c in List(r, t);
      var v := Victim(r, c);
      LoseOne(first, r, o.gone, v);
      FirstIsBefore(r, v, c);
      assert v in r.byUuid.Values by {
        assert ListOk(r, v.unitType);
      }
      RemoveKeepsShadows(r, aborted, t, v);
    }
  }

  lemma {:induction false} TriesKeepBlame(first: Indexes, aborted: set<ClientInfo>, t: int, tries: seq<Try>)
    requires Consistent(first) && OnlyAbortedBefore(first, aborted, t)
    ensures var o := AfterTries(first, aborted, t, tries);
      OnlyAbortedBefore(o.indexes, aborted, t) && OnlyBlamed(first, aborted, o.failed, t, o.gone)
  {
    if tries != [] {
      var before := tries[..|tries| - 1];
      TriesKeepBlame(first, aborted, t, before);
      TriesLose(first, aborted, t, before);
      TryKeepsBlame(first, aborted, t, AfterTries(first, aborted, t, before), tries[|tries| - 1]);
    }
  }

  /** A failed send to `c` loses another client, and leaves `c` and those between it and the victim. */
  lemma FailShadowed(o: Outcome, aborted: set<ClientInfo>, t: int, c: ClientInfo, d: ClientInfo) returns (try: Try)
    requires Consistent(o.indexes) && c in List(o.indexes, t) && d in o.indexes.byUuid.Values
    requires d.handle == c.handle && Before(o.indexes, d, c) && o.failed <= {c}
    ensures var o' := AfterTry(o, aborted, t, try);
      && o'.failed <= {c} && o.gone <= o'.gone && |o'.indexes.byUuid| < |o.indexes.byUuid|
      && (d.uuid in o'.gone
          || (c in List(o'.indexes, t) && d in o'.indexes.byUuid.Values && Before(o'.indexes, d, c)))
  {
    var r := o.indexes;
    var i: nat :| i < |List(r, t)| && List(r, t)[i] == c;
    try := Try(i, false);
    assert ListOk(r, t);
    var v := Victim(r, c);
    assert Registered(r, d);
    ShadowedIsNotFirst(r, d, c);
    assert v != c;
    RemovedIsGone(r, v);
    assert ListOk(r, v.unitType);
    WithoutHolds(List(r, v.unitType), v);
    var o' := AfterTry(o, aborted, t, try);
    assert o'.indexes == Removed(r, v.unitType, v);
    CardinalityDrops(r.byUuid, v.uuid, o'.indexes.byUuid);
    if v != d {
      RemoveKeepsOrder(r, v, d, c);
      assert d.uuid in r.byUuid && r.byUuid[d.uuid] == d;
    }
  }

  lemma {:induction false} LoseShadow(first: Indexes, aborted: set<ClientInfo>, t: int, tries: seq<Try>, c: ClientInfo,
                                      d: ClientInfo)
    returns (tries': seq<Try>)
    requires Consistent(first)
    requires var o := AfterTries(first, aborted, t, tries);
      && c in List(o.indexes, t) && d in o.indexes.byUuid.Values && d.handle == c.handle && Before(o.indexes, d, c)
      && o.failed <= {c}
    ensures var o' := AfterTries(first, aborted, t, tries');
      d.uuid in o'.gone && o'.failed <= {c}
    decreases |AfterTries(first, aborted, t, tries).indexes.byUuid|
  {
    var o := AfterTries(first, aborted, t, tries);
    var try := FailShadowed(o, aborted, t, c, d);
    tries' := tries + [try];
    assert tries'[..|tries|] == tries;
    if d.uuid !in AfterTries(first, aborted, t, tries').gone {
      tries' := LoseShadow(first, aborted, t, tries', c, d);
    }
  }

  /**
    Retrying removes only failing or aborted clients of the type, whatever is tried and whatever fails, if and
    only if every client that shares a handle with a client of the type and comes before it is an
    aborted client of the type. In particular if every client of the type comes first.
   */
  lemma OnlyBlamedIff(first: Indexes, aborted: set<ClientInfo>, t: int)
    requires Consistent(first)
    ensures AlwaysOnlyBlamed(first, aborted, t) <==> OnlyAbortedBefore(first, aborted, t)
  {
    if OnlyAbortedBefore(first, aborted, t) {
      forall tries
        ensures var o := AfterTries(first, aborted, t, tries); OnlyBlamed(first, aborted, o.failed, t, o.gone)
      {
        TriesKeepBlame(first, aborted, t, tries);
      }
    } else {
      var c, d :| c in List(first, t) && d in first.byUuid.Values && d.handle == c.handle && Before(first, d, c)
                  && !(d.unitType == t && d in aborted);
      var tries := LoseShadow(first, aborted, t, [], c, d);
      var o := AfterTries(first, aborted, t, tries);
      TriesLose(first, aborted, t, tries);
      assert first.byUuid[d.uuid] == d;
      assert ListOk(first, t) && c != d by {
        if d.unitType == t {
          var i, j :| 0 <= i < j < |List(first, t)| && List(first, t)[i] == d && List(first, t)[j] == c;
        }
      }
      assert !OnlyBlamed(first, aborted, o.failed, t, o.gone);
    }
  }

  /** Two live clients on one handle: retrying for the type of the second can remove the first. */
  lemma SharedHandleLosesOther(a: ClientInfo, b: ClientInfo)
    requires a.handle == b.handle && a.unitType < b.unitType && a.uuid != b.uuid
    ensures var r := Inserted(Inserted(NO_CLIENTS, a), b);
      Consistent(r) && !AlwaysOnlyBlamed(r, {}, b.unitType)
  {
    var r := Inserted(Inserted(NO_CLIENTS, a), b);
    SharedHandleShadows(a, b);
    assert r.byUuid[a.uuid] == a && b in List(r, b.unitType) && Before(r, a, b);
    OnlyBlamedIff(r, {}, b.unitType);
  }

  lemma WhoIsBlamed(first: Indexes, aborted: set<ClientInfo>, t: int, tries: seq<Try>)
    requires Consistent(first)
    ensures var o := AfterTries(first, aborted, t, tries);
      OnlyAbortedBefore(first, aborted, t) || HandlesDiffer(first) ==> OnlyBlamed(first, aborted, o.failed, t, o.gone)
  {
    if HandlesDiffer(first) {
      DistinctHasNoShadows(first, aborted, t);
    }
    if OnlyAbortedBefore(first, aborted, t) {
      TriesKeepBlame(first, aborted, t, tries);
    }
  }

  lemma RemovedDrops(r: Indexes, v: ClientInfo)
    requires Consistent(r) && Registered(r, v)
    ensures |Removed(r, v.unitType, v).byUuid| < |r.byUuid|
  {
    RemovedIsGone(r, v);
    assert ListOk(r, v.unitType);
    CardinalityDrops(r.byUuid, v.uuid, Removed(r, v.unitType, v).byUuid);
  }

  /** With distinct handles nobody comes before a client on its handle. */
  lemma DistinctHasNoShadows(r: Indexes, aborted: set<ClientInfo>, t: int)
    requires Consistent(r) && HandlesDiffer(r)
    ensures OnlyAbortedBefore(r, aborted, t)
  {
    forall c, d | c in List(r, t) && d in r.byUuid.Values && d.handle == c.handle
      ensures !Before(r, d, c)
    {
      assert ListOk(r, t) && c == d;
    }
  }

  lemma CardinalityDrops(before: map<nat, ClientInfo>, u: nat, after: map<nat, ClientInfo>)
    requires u in before && after.Keys == before.Keys - {u}
    ensures |after| < |before|
  {
    assert |before.Keys| == |after.Keys| + 1;
    assert |before.Keys| == |before| && |after.Keys| == |after|;
  }
}
