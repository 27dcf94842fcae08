/**
  The server's two client indexes: per unit type, in order of registration, and by uuid. Pure functions
  say what registering and removing do; `Consistent` says that the indexes hold the same clients.
 */
module Registry {

  class ClientInfo {
    const handle: int
    const uuid: nat
    const unitType: int
    const prettyName: string
    var abort: bool

    constructor (handle: int, uuid: nat, unitType: int, prettyName: string)
      ensures this.handle == handle && this.uuid == uuid && this.unitType == unitType
      ensures this.prettyName == prettyName && !abort
    {
      this.handle, this.uuid, this.unitType, this.prettyName := handle, uuid, unitType, prettyName;
      abort := false;
    }
  }

  /** `lists` is clientMap, `byUuid` is clientUuidMap. */
  datatype Indexes = Indexes(lists: map<int, seq<ClientInfo>>, byUuid: map<nat, ClientInfo>)

  const NO_CLIENTS := Indexes(map[], map[])

  function List(r: Indexes, t: int): seq<ClientInfo> {
    if t in r.lists then r.lists[t] else []
  }

  ghost predicate NoDuplicates(s: seq<ClientInfo>) {
    forall i, j :: 0 <= i < j < |s| ==> s[i] != s[j]
  }

  ghost predicate ListOk(r: Indexes, t: int) {
    && NoDuplicates(List(r, t))
    && forall c :: c in List(r, t) ==> c.unitType == t && c.uuid in r.byUuid && r.byUuid[c.uuid] == c
  }

  /** Both indexes hold the same clients, each once, under its own type and its own uuid. */
  ghost predicate Consistent(r: Indexes) {
    && (forall t {:trigger ListOk(r, t)} :: ListOk(r, t))
    && forall u :: u in r.byUuid ==> r.byUuid[u].uuid == u && r.byUuid[u] in List(r, r.byUuid[u].unitType)
  }

  ghost predicate Registered(r: Indexes, c: ClientInfo) {
    c in List(r, c.unitType)
  }

  function Without(s: seq<ClientInfo>, c: ClientInfo): seq<ClientInfo> {
    if s == [] then [] else if s[0] == c then s[1..] else [s[0]] + Without(s[1..], c)
  }

  function Inserted(r: Indexes, c: ClientInfo): Indexes {
    Indexes(r.lists[c.unitType := List(r, c.unitType) + [c]], r.byUuid[c.uuid := c])
  }

  /** Looking the type up creates its list; a client that is not in it is not removed from anywhere. */
  function Removed(r: Indexes, t: int, c: ClientInfo): Indexes {
    Indexes(r.lists[t := Without(List(r, t), c)], if c in List(r, t) then r.byUuid - {c.uuid} else r.byUuid)
  }

  // ---- The indexes stay in agreement ----

  lemma {:induction false} WithoutHolds(s: seq<ClientInfo>, c: ClientInfo)
    requires NoDuplicates(s)
    ensures NoDuplicates(Without(s, c)) && forall d :: d in Without(s, c) <==> d in s && d != c
    ensures |Without(s, c)| == |s| - if c in s then 1 else 0
  {
    if s != [] && s[0] != c {
      WithoutHolds(s[1..], c);
      assert s == [s[0]] + s[1..];
      assert s[0] !in s[1..];
    }
  }

  lemma {:induction false} WithoutAt(s: seq<ClientInfo>, c: ClientInfo, i: nat)
    requires i <= |s| && c !in s[..i]
    ensures i < |s| && s[i] == c ==> Without(s, c) == s[..i] + s[i + 1..]
    ensures i == |s| ==> Without(s, c) == s
  {
    if i > 0 {
      assert s[0] == s[..i][0] && s[..i][1..] == s[1..][..i - 1];
      WithoutAt(s[1..], c, i - 1);
    }
  }

  lemma InsertKeepsConsistent(r: Indexes, c: ClientInfo)
    requires Consistent(r) && c.uuid !in r.byUuid
    ensures Consistent(Inserted(r, c))
  {
    var r' := Inserted(r, c);
    forall t ensures ListOk(r', t) {
      assert ListOk(r, t);
    }
  }

  lemma RemoveKeepsConsistent(r: Indexes, t: int, c: ClientInfo)
    requires Consistent(r)
    ensures Consistent(Removed(r, t, c))
  {
    var r' := Removed(r, t, c);
    assert ListOk(r, t);
    WithoutHolds(List(r, t), c);
    forall t' ensures ListOk(r', t') {
      assert ListOk(r, t');
      forall d | d in List(r', t') ensures d.unitType == t' && d.uuid in r'.byUuid && r'.byUuid[d.uuid] == d {
        assert d in List(r, t') && (c in List(r, t) ==> d != c);
      }
    }
  }

  /** Removing takes exactly the one client out of both indexes. */
  lemma RemovedIsGone(r: Indexes, c: ClientInfo)
    requires Consistent(r) && Registered(r, c)
    ensures var r' := Removed(r, c.unitType, c);
      && c.uuid !in r'.byUuid && !Registered(r', c)
      && forall u :: u in r.byUuid && u != c.uuid ==> u in r'.byUuid && r'.byUuid[u] == r.byUuid[u]
  {
    assert ListOk(r, c.unitType);
    WithoutHolds(List(r, c.unitType), c);
  }

  // ---- Runs of the server ----

  /** The accept thread has nothing open, or has found a client's uuid unused but not yet inserted it. */
  datatype Acceptor = Idle | Cleared(c: ClientInfo)

  datatype Server = Server(indexes: Indexes, acceptor: Acceptor)

  /**
    `Probe` is the collision check, `Insert` the registration; the lock is released between the two.
    `Drop` is a removal by any thread, in between as well.
   */
  datatype Event = Probe(c: ClientInfo) | Insert | Drop(t: int, c: ClientInfo)

  predicate Possible(s: Server, e: Event) {
    match e
    case Probe(_) => s.acceptor.Idle?
    case Insert => s.acceptor.Cleared?
    case Drop(_, _) => true
  }

  function Step(s: Server, e: Event): Server
    requires Possible(s, e)
  {
    match e
    case Probe(c) => if c.uuid in s.indexes.byUuid then s else s.(acceptor := Cleared(c))
    case Insert => Server(Inserted(s.indexes, s.acceptor.c), Idle)
    case Drop(t, c) => s.(indexes := Removed(s.indexes, t, c))
  }

  ghost predicate ServerOk(s: Server) {
    Consistent(s.indexes) && (s.acceptor.Cleared? ==> s.acceptor.c.uuid !in s.indexes.byUuid)
  }

  lemma StepKeepsServer(s: Server, e: Event)
    requires ServerOk(s) && Possible(s, e)
    ensures ServerOk(Step(s, e))
  {
    match e {
      case Probe(_) =>
      case Insert => InsertKeepsConsistent(s.indexes, s.acceptor.c);
      case Drop(t, c) => RemoveKeepsConsistent(s.indexes, t, c);
    }
  }

  /** The states of a run: each follows from the one before by a possible step. */
  ghost predicate IsRun(states: seq<Server>, events: seq<Event>) {
    && |states| == |events| + 1
    && states[0] == Server(NO_CLIENTS, Idle)
    && forall i :: 0 <= i < |events| ==> Possible(states[i], events[i]) && states[i + 1] == Step(states[i], events[i])
  }

  lemma {:induction false} RunKeepsServer(states: seq<Server>, events: seq<Event>, i: nat)
    requires IsRun(states, events) && i < |states|
    ensures ServerOk(states[i])
  {
    if i == 0 {
      forall t ensures ListOk(NO_CLIENTS, t) {
      }
    } else {
      RunKeepsServer(states, events, i - 1);
      StepKeepsServer(states[i - 1], events[i - 1]);
    }
  }

  /**
    In every run the two indexes agree, and a registration never overwrites an entry although the lock is
    released between check and insertion: only the accept thread inserts, all others only remove.
   */
  lemma InsertNeverOverwrites(states: seq<Server>, events: seq<Event>, i: nat)
    requires IsRun(states, events) && i < |events| && events[i] == Insert
    ensures Consistent(states[i].indexes) && Consistent(states[i + 1].indexes)
    ensures var c, before, after := states[i].acceptor.c, states[i].indexes, states[i + 1].indexes;
      && c.uuid !in before.byUuid && !Registered(before, c)
      && (forall u :: u in before.byUuid ==> u in after.byUuid && after.byUuid[u] == before.byUuid[u])
      && after.byUuid.Keys == before.byUuid.Keys + {c.uuid}
      && List(after, c.unitType) == List(before, c.unitType) + [c]
  {
    RunKeepsServer(states, events, i);
    RunKeepsServer(states, events, i + 1);
    assert ListOk(states[i].indexes, states[i].acceptor.c.unitType);
  }
}
