/**
  The server's operations on its client indexes: registration, removal, sending with removal of failed
  clients, sending to any client of a type, clearing aborted clients and listing uuids. A send's result
  and the random choice of a client are arbitrary.
 */
module TcpServer {
  import opened KeyOrder
  import opened Registry
  import opened Retries
  import opened Sequences

  const UNDEFINED_UNIT_TYPE: int := 0

  /** The same types have lists, and only the list of `t` may differ. */
  ghost predicate OtherLists(before: map<int, seq<ClientInfo>>, after: map<int, seq<ClientInfo>>, t: int) {
    && t in before && after.Keys == before.Keys
    && forall t' :: t' in before && t' != t ==> after[t'] == before[t']
  }

  /** The clients of a list that are not aborted, in order. */
  function Live(s: seq<ClientInfo>, aborted: set<ClientInfo>): seq<ClientInfo> {
    if s == [] then []
    else
      var c := s[|s| - 1];
      Live(s[..|s| - 1], aborted) + if c in aborted then [] else [c]
  }

  ghost function LivePositions(s: seq<ClientInfo>, aborted: set<ClientInfo>): set<nat> {
    set k: nat | k < |s| && s[k] !in aborted
  }

  /** Exactly the clients that are not aborted, each once and in order. */
  lemma {:induction false} LiveSelects(s: seq<ClientInfo>, aborted: set<ClientInfo>)
    ensures Selected(Live(s, aborted), s, LivePositions(s, aborted))
  {
    if s == [] {
      NoneSelected<ClientInfo>();
      assert LivePositions(s, aborted) == {};
    } else {
      var before, c := s[..|s| - 1], s[|s| - 1];
      var part, chosen := Live(before, aborted), LivePositions(before, aborted);
      LiveSelects(before, aborted);
      assert s == before + [c];
      LivePositionsOfLast(before, aborted, c);
      if c !in aborted {
        SelectedKeep(part, before, chosen, c);
        assert Live(s, aborted) == part + [c];
      } else {
        SelectedSkip(part, before, chosen, c);
        assert Live(s, aborted) == part;
      }
    }
  }

  lemma LivePositionsOfLast(s: seq<ClientInfo>, aborted: set<ClientInfo>, c: ClientInfo)
    ensures var chosen := LivePositions(s, aborted);
      LivePositions(s + [c], aborted) == if c !in aborted then chosen + {|s|} else chosen
  {
  }

  /** `after` is `before` without the aborted clients of the given types. */
  ghost predicate ListsCleared(before: Indexes, after: Indexes, aborted: set<ClientInfo>, types: seq<int>) {
    forall t {:trigger List(after, t)} ::
      List(after, t) == if t in types then Live(List(before, t), aborted) else List(before, t)
  }

  lemma ClearedNext(before: Indexes, mid: Indexes, after: Indexes, aborted: set<ClientInfo>, types: seq<int>, t: int)
    requires ListsCleared(before, mid, aborted, types) && t !in types
    requires OtherLists(mid.lists, after.lists, t) && after.lists[t] == Live(mid.lists[t], aborted)
    ensures ListsCleared(before, after, aborted, types + [t])
  {
    assert List(mid, t) == List(before, t);
    forall t'
      ensures List(after, t') == if t' in types + [t] then Live(List(before, t'), aborted) else List(before, t')
    {
      assert t' != t ==> List(after, t') == List(mid, t');
    }
  }

  lemma {:induction false} LiveHolds(s: seq<ClientInfo>, aborted: set<ClientInfo>, c: ClientInfo)
    ensures c in Live(s, aborted) <==> c in s && c !in aborted
  {
    if s != [] {
      LiveHolds(s[..|s| - 1], aborted, c);
      assert s == s[..|s| - 1] + [s[|s| - 1]];
    }
  }

  lemma ClearedClients(before: Indexes, after: Indexes, aborted: set<ClientInfo>, types: seq<int>)
    requires Consistent(before) && Consistent(after) && ListsCleared(before, after, aborted, types)
    requires forall t :: t in before.lists ==> t in types
    ensures after.byUuid.Values == before.byUuid.Values - aborted
  {
    forall c | c in after.byUuid.Values ensures c in before.byUuid.Values - aborted {
      assert c in List(after, c.unitType);
      LiveHolds(List(before, c.unitType), aborted, c);
      assert ListOk(before, c.unitType);
    }
    forall c | c in before.byUuid.Values - aborted ensures c in after.byUuid.Values {
      assert c in List(before, c.unitType);
      LiveHolds(List(before, c.unitType), aborted, c);
      assert ListOk(after, c.unitType) && c in List(after, c.unitType);
    }
  }

  /** In the middle of a list: `done` is left of the first `m` clients, the rest is as before. */
  lemma ClearOne(s: seq<ClientInfo>, done: seq<ClientInfo>, aborted: set<ClientInfo>, m: nat)
    requires m < |s| && done == Live(s[..m], aborted) && NoDuplicates(done + s[m..])
    ensures (done + s[m..])[|done|] == s[m]
    ensures Live(s[..m + 1], aborted) == if s[m] in aborted then done else done + [s[m]]
    ensures Without(done + s[m..], s[m]) == done + s[m + 1..]
    ensures done + s[m..] == done + [s[m]] + s[m + 1..]
  {
    LiveNext(s, aborted, m);
    SplitHead(s, m);
    WithoutMiddle(done, s[m], s[m + 1..]);
    JoinHead(done, s[m], s[m + 1..]);
  }

  lemma SplitHead<T>(s: seq<T>, m: nat)
    requires m < |s|
    ensures s[m..] == [s[m]] + s[m + 1..]
  {
  }

  lemma JoinHead<T>(front: seq<T>, c: T, back: seq<T>)
    ensures front + ([c] + back) == front + [c] + back && (front + ([c] + back))[|front|] == c
  {
  }

  lemma LiveNext(s: seq<ClientInfo>, aborted: set<ClientInfo>, m: nat)
    requires m < |s|
    ensures Live(s[..m + 1], aborted) == Live(s[..m], aborted) + if s[m] in aborted then [] else [s[m]]
  {
    assert s[..m + 1][..m] == s[..m];
  }

  /** The list `s` once its first `m` clients have been looked at. */
  function Partly(s: seq<ClientInfo>, m: nat, aborted: set<ClientInfo>): seq<ClientInfo>
    requires m <= |s|
  {
    Live(s[..m], aborted) + s[m..]
  }

  lemma PartlyEnds(s: seq<ClientInfo>, aborted: set<ClientInfo>)
    ensures Partly(s, 0, aborted) == s && Partly(s, |s|, aborted) == Live(s, aborted)
  {
    assert s[..|s|] == s;
  }

  lemma WithoutMiddle(front: seq<ClientInfo>, c: ClientInfo, back: seq<ClientInfo>)
    requires NoDuplicates(front + ([c] + back))
    ensures Without(front + ([c] + back), c) == front + back
  {
    var s, i := front + ([c] + back), |front|;
    assert s[i] == c && s[..i] == front && s[i + 1..] == back;
    assert c !in s[..i];
    WithoutAt(s, c, i);
  }

  /** Names and uuids of a list of clients. */
  function Pairs(s: seq<ClientInfo>): seq<(string, nat)> {
    if s == [] then [] else Pairs(s[..|s| - 1]) + [(s[|s| - 1].prettyName, s[|s| - 1].uuid)]
  }

  /** Names and uuids of the live clients of several types, type by type. */
  function PairsOfTypes(r: Indexes, aborted: set<ClientInfo>, types: seq<int>): seq<(string, nat)> {
    if types == [] then []
    else PairsOfTypes(r, aborted, types[..|types| - 1]) + Pairs(Live(List(r, types[|types| - 1]), aborted))
  }

  /** Each client's name with its own uuid, in order. */
  ghost predicate PairUp(pairs: seq<(string, nat)>, s: seq<ClientInfo>) {
    |pairs| == |s| && forall i :: 0 <= i < |s| ==> pairs[i] == (s[i].prettyName, s[i].uuid)
  }

  lemma {:induction false} PairsPairUp(s: seq<ClientInfo>)
    ensures PairUp(Pairs(s), s)
  {
    if s != [] {
      PairsPairUp(s[..|s| - 1]);
    }
  }

  /** `cuts` divides the pairs into one stretch for each type, in the order of the types. */
  ghost predicate TypeByType(pairs: seq<(string, nat)>, r: Indexes, aborted: set<ClientInfo>, types: seq<int>,
                             cuts: seq<nat>)
  {
    && |cuts| == |types| + 1 && cuts[0] == 0 && cuts[|types|] == |pairs|
    && forall i :: 0 <= i < |types| ==> Stretch(pairs, cuts, i, Live(List(r, types[i]), aborted))
  }

  /** The `i`-th stretch has the pairs of these clients. */
  ghost predicate Stretch(pairs: seq<(string, nat)>, cuts: seq<nat>, i: nat, s: seq<ClientInfo>) {
    i + 1 < |cuts| && cuts[i] <= cuts[i + 1] <= |pairs| && PairUp(pairs[cuts[i]..cuts[i + 1]], s)
  }

  lemma {:induction false} PairsGoTypeByType(r: Indexes, aborted: set<ClientInfo>, types: seq<int>)
    returns (cuts: seq<nat>)
    ensures TypeByType(PairsOfTypes(r, aborted, types), r, aborted, types, cuts)
  {
    if types == [] {
      cuts := [0];
    } else {
      var n, before := |types| - 1, types[..|types| - 1];
      var pairs, last := PairsOfTypes(r, aborted, before), Live(List(r, types[n]), aborted);
      var cuts0 := PairsGoTypeByType(r, aborted, before);
      cuts := cuts0 + [|pairs + Pairs(last)|];
      forall i | 0 <= i < |types| ensures Stretch(pairs + Pairs(last), cuts, i, Live(List(r, types[i]), aborted)) {
        if i < n {
          assert Stretch(pairs, cuts0, i, Live(List(r, before[i]), aborted));
          StretchStays(pairs, Pairs(last), cuts0, i, Live(List(r, types[i]), aborted));
        } else {
          LastStretch(pairs, cuts0, last);
        }
      }
    }
  }

  lemma StretchStays(pairs: seq<(string, nat)>, more: seq<(string, nat)>, cuts: seq<nat>, i: nat, s: seq<ClientInfo>)
    requires Stretch(pairs, cuts, i, s)
    ensures Stretch(pairs + more, cuts + [|pairs + more|], i, s)
  {
    assert (pairs + more)[cuts[i]..cuts[i + 1]] == pairs[cuts[i]..cuts[i + 1]];
  }

  lemma LastStretch(pairs: seq<(string, nat)>, cuts: seq<nat>, s: seq<ClientInfo>)
    requires |cuts| > 0 && cuts[|cuts| - 1] == |pairs|
    ensures Stretch(pairs + Pairs(s), cuts + [|pairs + Pairs(s)|], |cuts| - 1, s)
  {
    PairsPairUp(s);
    assert (pairs + Pairs(s))[|pairs|..|pairs + Pairs(s)|] == Pairs(s);
  }

  lemma {:induction false} NoPairs(r: Indexes, aborted: set<ClientInfo>, types: seq<int>)
    requires forall t :: t in r.lists ==> r.lists[t] == []
    ensures PairsOfTypes(r, aborted, types) == []
  {
    if types != [] {
      NoPairs(r, aborted, types[..|types| - 1]);
    }
  }

  class TCPServer {
    var clientMap: map<int, seq<ClientInfo>>
    var clientUuidMap: map<nat, ClientInfo>
    /** The clients whose socket took a message, in order. */
    ghost var delivered: seq<ClientInfo>

    ghost function View(): Indexes
      reads this
    {
      Indexes(clientMap, clientUuidMap)
    }

    ghost predicate Valid()
      reads this
    {
      Consistent(View())
    }

    ghost function Clients(): set<ClientInfo>
      reads this
    {
      clientUuidMap.Values
    }

    /** Registered clients have different sockets. */
    ghost predicate DistinctHandles()
      reads this
    {
      HandlesDiffer(View())
    }

    constructor ()
      ensures Valid() && View() == NO_CLIENTS
    {
      clientMap, clientUuidMap, delivered := map[], map[], [];
      new;
      forall t ensures ListOk(NO_CLIENTS, t) {
      }
    }

    /** Registers a new connection; a client whose uuid is taken must answer with another one or is dropped. */
    method Register(handle: int, unitType: int, prettyName: string, uuid: nat, answers: seq<nat>)
      returns (client: ClientInfo?, next: nat)
      requires Valid()
      modifies this
      ensures Valid() && next <= |answers|
      ensures forall i :: 0 <= i < next ==> ([uuid] + answers)[i] in old(clientUuidMap)
      ensures client == null ==> View() == old(View()) && next == |answers| && ([uuid] + answers)[next] in clientUuidMap
      ensures client != null ==>
        && fresh(client) && client.handle == handle && client.unitType == unitType && client.prettyName == prettyName
        && client.uuid == ([uuid] + answers)[next] && client.uuid !in old(clientUuidMap)
        && View() == Inserted(old(View()), client)
    {
      var candidate := uuid;
      next := 0;
      while candidate in clientUuidMap
        invariant 0 <= next <= |answers| && View() == old(View())
        invariant candidate == ([uuid] + answers)[next]
        invariant forall i :: 0 <= i < next ==> ([uuid] + answers)[i] in clientUuidMap
        decreases |answers| - next
      {
        if next == |answers| {
          return null, next;
        }
        candidate := answers[next];
        next := next + 1;
      }
      var info := new ClientInfo(handle, candidate, unitType, prettyName);
      InsertKeepsConsistent(View(), info);
      var vec := if unitType in clientMap then clientMap[unitType] else [];
      clientMap := clientMap[unitType := vec + [info]];
      clientUuidMap := clientUuidMap[candidate := info];
      client := info;
    }

    method HasClients() returns (b: bool)
      ensures b <==> exists t :: t in clientMap && clientMap[t] != []
    {
      var keys, count: nat := KeysInOrder(clientMap.Keys), 0;
      KeysAreInOrder(clientMap.Keys);
      for i := 0 to |keys|
        invariant count > 0 <==> exists j :: 0 <= j < i && clientMap[keys[j]] != []
      {
        assert keys[i] in keys;
        count := count + |clientMap[keys[i]]|;
      }
      if t :| t in clientMap && clientMap[t] != [] {
        assert t in keys;
      }
      if j :| 0 <= j < |keys| && clientMap[keys[j]] != [] {
        assert keys[j] in keys;
      }
      b := count > 0;
    }

    /** Removal by type and pointer; releasing the client sets its abort flag. */
    method RemoveClientOfType(t: int, info: ClientInfo)
      requires Valid()
      modifies this`clientMap, this`clientUuidMap, info`abort
      ensures Valid() && View() == Removed(old(View()), t, info)
      ensures info.abort == (old(info.abort) || info in List(old(View()), t))
    {
      RemoveKeepsConsistent(View(), t, info);
      var vec := if t in clientMap then clientMap[t] else [];
      var i := 0;
      while i < |vec| && vec[i] != info
        invariant i <= |vec| && info !in vec[..i]
      {
        assert vec[..i + 1] == vec[..i] + [vec[i]];
        i := i + 1;
      }
      WithoutAt(vec, info, i);
      assert vec[..|vec|] == vec;
      if i < |vec| {
        clientUuidMap := clientUuidMap - {info.uuid};
        info.abort := true;
        vec := vec[..i] + vec[i + 1..];
      }
      clientMap := clientMap[t := vec];
      assert View() == Removed(old(View()), t, info);
    }

    ghost predicate HasHandle(handle: int)
      reads this
    {
      exists u :: u in clientUuidMap && clientUuidMap[u].handle == handle
    }

    lemma ListMember(t: int, i: nat)
      requires Valid() && t in clientMap && i < |clientMap[t]|
      ensures var c := clientMap[t][i];
        && c.unitType == t && c.uuid in clientUuidMap && clientUuidMap[c.uuid] == c
        && c in Clients() && Registered(View(), c)
    {
      assert ListOk(View(), t);
      var c := clientMap[t][i];
      assert c in List(View(), t);
    }

    method FindHandle(vec: seq<ClientInfo>, handle: int) returns (i: nat)
      ensures i <= |vec| && (i < |vec| ==> vec[i].handle == handle)
      ensures forall j :: 0 <= j < i ==> vec[j].handle != handle
    {
      i := 0;
      while i < |vec| && vec[i].handle != handle
        invariant i <= |vec| && forall j :: 0 <= j < i ==> vec[j].handle != handle
      {
        i := i + 1;
      }
    }

    ghost predicate NotIn(t: int, handle: int)
      reads this
    {
      forall c :: c in List(View(), t) ==> c.handle != handle
    }

    lemma HandleIsInNoList(keys: seq<int>, handle: int)
      requires Valid() && InOrder(keys, clientMap.Keys)
      requires forall j :: 0 <= j < |keys| ==> NotIn(keys[j], handle)
      ensures !HasHandle(handle)
    {
      forall u | u in clientUuidMap ensures clientUuidMap[u].handle != handle {
        var c := clientUuidMap[u];
        assert c in List(View(), c.unitType);
        assert c.unitType in keys;
        assert NotIn(c.unitType, handle);
      }
    }

    lemma FoundComesFirst(keys: seq<int>, k: nat, i: nat)
      requires Valid() && InOrder(keys, clientMap.Keys) && k < |keys|
      requires keys[k] in clientMap && i < |clientMap[keys[k]]|
      requires forall j :: 0 <= j < k ==> NotIn(keys[j], clientMap[keys[k]][i].handle)
      requires forall j :: 0 <= j < i ==> clientMap[keys[k]][j].handle != clientMap[keys[k]][i].handle
      ensures ComesFirst(View(), clientMap[keys[k]][i])
    {
      ListMember(keys[k], i);
      forall t, j | t in clientMap && 0 <= j < |clientMap[t]| && clientMap[t][j].handle == clientMap[keys[k]][i].handle
        ensures keys[k] < t || (keys[k] == t && i <= j)
      {
        assert t in keys;
        var m :| 0 <= m < |keys| && keys[m] == t;
        assert clientMap[t][j] in List(View(), keys[m]);
        assert m < k ==> NotIn(keys[m], clientMap[keys[k]][i].handle);
      }
      assert FirstAt(View(), keys[k], i);
    }

    /** The first client with the handle, type by type. */
    method FindClient(handle: int) returns (found: ClientInfo?)
      requires Valid()
      ensures found == null <==> !HasHandle(handle)
      ensures found != null ==>
        Registered(View(), found) && found.handle == handle && found in Clients() && ComesFirst(View(), found)
    {
      var keys := KeysInOrder(clientMap.Keys);
      KeysAreInOrder(clientMap.Keys);
      for k := 0 to |keys|
        invariant forall j :: 0 <= j < k ==> NotIn(keys[j], handle)
      {
        assert keys[k] in keys;
        var vec := clientMap[keys[k]];
        var i := FindHandle(vec, handle);
        if i < |vec| {
          ListMember(keys[k], i);
          FoundComesFirst(keys, k, i);
          return vec[i];
        }
      }
      HandleIsInNoList(keys, handle);
      return null;
    }

    /** Removal by socket handle: the first client with the handle goes. */
    method RemoveClient(handle: int) returns (removed: ClientInfo?)
      requires Valid()
      modifies this`clientMap, this`clientUuidMap, Clients()
      ensures Valid()
      ensures removed == null <==> !old(HasHandle(handle))
      ensures removed == null ==> View() == old(View())
      ensures removed != null ==>
        && Registered(old(View()), removed) && removed.handle == handle && removed.abort
        && ComesFirst(old(View()), removed)
        && View() == Removed(old(View()), removed.unitType, removed)
      ensures forall c :: c in old(Clients()) && c != removed ==> c.abort == old(c.abort)
    {
      removed := FindClient(handle);
      if removed != null {
        RemoveClientOfType(removed.unitType, removed);
      }
    }

    /** The removal after a failed send. */
    method DropFirst(info: ClientInfo) returns (victim: ClientInfo)
      requires Valid() && Registered(View(), info)
      modifies this`clientMap, this`clientUuidMap, Clients()
      ensures Valid() && Registered(old(View()), victim) && victim.handle == info.handle
      ensures ComesFirst(old(View()), victim) && (victim == info <==> ComesFirst(old(View()), info))
      ensures View() == Removed(old(View()), victim.unitType, victim)
      ensures forall c :: c in old(Clients()) && c != victim ==> c.abort == old(c.abort)
    {
      IsClient(info);
      ghost var before := View();
      var removed := RemoveClient(info.handle);
      FirstIsIt(before, removed, info);
      victim := removed;
    }

    lemma IsClient(c: ClientInfo)
      requires Valid() && Registered(View(), c)
      ensures HasHandle(c.handle) && c in Clients()
    {
      assert ListOk(View(), c.unitType);
      assert clientUuidMap[c.uuid].handle == c.handle;
    }

    /**
      `delivers` is whether the operating system takes the message; if not, the first client with the same
      handle is removed. That is the client itself unless another one with its handle comes before it.
     */
    method SendTo(info: ClientInfo, delivers: bool) returns (sent: bool, ghost victim: ClientInfo?)
      requires Valid() && Registered(View(), info)
      modifies this, Clients()
      ensures Valid() && sent == (!old(info.abort) && delivers)
      ensures delivered == old(delivered) + if sent then [info] else []
      ensures sent ==> victim == null && View() == old(View())
      ensures !sent ==>
        && victim != null && Registered(old(View()), victim) && victim.handle == info.handle
        && ComesFirst(old(View()), victim)
        && (victim == info <==> ComesFirst(old(View()), info))
        && View() == Removed(old(View()), victim.unitType, victim)
      ensures forall c :: c in old(Clients()) && c != victim ==> c.abort == old(c.abort)
    {
      IsClient(info);
      victim := null;
      if info.abort || !delivers {
        var removed := DropFirst(info);
        return false, removed;
      }
      delivered := delivered + [info];
      sent := true;
    }

    /** No client was added, and the abort flags of those still there are as before. */
    twostate predicate OnlyRemovals()
      reads this, Clients()
    {
      forall u :: u in clientUuidMap ==>
        && u in old(clientUuidMap) && clientUuidMap[u] == old(clientUuidMap[u])
        && clientUuidMap[u].abort == old(clientUuidMap[u].abort)
    }

    /** One try: the client at the chosen position takes the message or a client with its handle is removed. */
    method Attempt(t: int, idx: nat, delivers: bool) returns (client: ClientInfo, sent: bool, ghost victim: ClientInfo?)
      requires Valid() && t in clientMap && idx < |clientMap[t]|
      modifies this, Clients()
      ensures Valid() && OnlyRemovals() && t in clientMap
      ensures client == old(clientMap[t][idx]) && client.unitType == t
      ensures Registered(old(View()), client) && client in old(Clients())
      ensures sent == (!old(client.abort) && delivers)
      ensures delivered == old(delivered) + if sent then [client] else []
      ensures sent ==> View() == old(View())
      ensures !sent ==>
        && victim != null && Registered(old(View()), victim) && victim.handle == client.handle
        && ComesFirst(old(View()), victim)
        && View() == Removed(old(View()), victim.unitType, victim)
    {
      client := clientMap[t][idx];
      ListMember(t, idx);
      sent, victim := SendTo(client, delivers);
    }

    ghost function Aborted(): set<ClientInfo>
      reads this, Clients()
    {
      set c | c in Clients() && c.abort
    }

    /** The clients still there are among those of `first`, with the abort flags they had. */
    ghost predicate Flagged(first: Indexes, aborted: set<ClientInfo>)
      reads this, Clients()
    {
      forall u :: u in clientUuidMap ==>
        && u in first.byUuid && clientUuidMap[u] == first.byUuid[u]
        && (clientUuidMap[u].abort <==> clientUuidMap[u] in aborted)
    }

    /** One round of the retry loop on a non-empty list; a round that does not deliver loses a client. */
    method TryOne(t: int, ghost first: Indexes, ghost aborted: set<ClientInfo>, ghost tries: seq<Try>)
      returns (client: ClientInfo, sent: bool, ghost tries': seq<Try>)
      requires Valid() && t in clientMap && clientMap[t] != [] && Flagged(first, aborted)
      requires Consistent(first) && View() == AfterTries(first, aborted, t, tries).indexes
      modifies this, Clients()
      ensures Valid() && t in clientMap && Flagged(first, aborted) && Clients() <= old(Clients())
      ensures View() == AfterTries(first, aborted, t, tries').indexes
      ensures if sent then delivered == old(delivered) + [client]
        else delivered == old(delivered) && |clientUuidMap| < |old(clientUuidMap)|
      ensures sent ==> client in first.byUuid.Values && client in List(View(), t) && client !in aborted
    {
      var vec := clientMap[t];
      var idx: nat :| idx < |vec|;
      var delivers: bool := *;
      ghost var before := View();
      ListMember(t, idx);
      ghost var victim;
      client, sent, victim := Attempt(t, idx, delivers);
      tries' := tries;
      if !sent {
        RemovedDrops(before, victim);
        OneMoreTry(first, aborted, t, tries, Try(idx, delivers), victim);
        tries' := tries + [Try(idx, delivers)];
      }
    }

    /**
      Tries clients of the type, chosen at random, until one takes the message or none is left; the result
      of each send is arbitrary. `failed` are the clients whose send failed, `gone` the uuids removed.
     */
    method SendToAnyOfType(t: int)
      returns (receiver: ClientInfo?, ghost tries: seq<Try>, ghost failed: set<ClientInfo>, ghost gone: set<nat>)
      requires Valid()
      modifies this, Clients()
      ensures Valid() && Outcome(View(), failed, gone) == AfterTries(old(View()), old(Aborted()), t, tries)
      ensures Lost(old(View()), View(), gone) && Blamed(old(View()), old(Aborted()), failed, t, gone)
      ensures receiver == null ==> List(View(), t) == [] && delivered == old(delivered)
      ensures receiver != null ==>
        && receiver in old(Clients()) && receiver in List(View(), t) && receiver !in old(Aborted())
        && delivered == old(delivered) + [receiver]
      ensures OnlyAbortedBefore(old(View()), old(Aborted()), t) ==>
        OnlyBlamed(old(View()), old(Aborted()), failed, t, gone)
      ensures old(DistinctHandles()) ==> OnlyBlamed(old(View()), old(Aborted()), failed, t, gone)
    {
      tries, receiver := [], null;
      ghost var first, aborted := View(), Aborted();
      var some := HasClients();
      if some && t in clientMap {
        while clientMap[t] != []
          invariant Valid() && t in clientMap && Flagged(first, aborted) && Clients() <= old(Clients())
          invariant View() == AfterTries(first, aborted, t, tries).indexes
          invariant delivered == old(delivered) && receiver == null
          decreases |clientUuidMap|
        {
          var client, sent;
          client, sent, tries := TryOne(t, first, aborted, tries);
          if sent {
            receiver := client;
            break;
          }
        }
      }
      ghost var o := AfterTries(first, aborted, t, tries);
      failed, gone := o.failed, o.gone;
      TriesLose(first, aborted, t, tries);
      WhoIsBlamed(first, aborted, t, tries);
    }

    /** Looks at one position of a list and removes the client there if it is aborted. */
    method ClearPosition(t: int, i: nat) returns (next: nat)
      requires Valid() && t in clientMap && i < |clientMap[t]|
      modifies this`clientMap, this`clientUuidMap, Clients()
      ensures Valid() && OnlyRemovals()
      ensures var c := old(clientMap[t][i]);
        if old(c.abort) then next == i && clientMap == old(clientMap)[t := Without(old(clientMap[t]), c)]
        else next == i + 1 && clientMap == old(clientMap)
    {
      var c := clientMap[t][i];
      ListMember(t, i);
      if c.abort {
        RemoveClientOfType(t, c);
        return i;
      }
      return i + 1;
    }

    /** One iteration over the list `s`, of which the first `m` clients have been looked at. */
    method ClearNext(t: int, i: nat, ghost s: seq<ClientInfo>, ghost m: nat, ghost aborted: set<ClientInfo>)
      returns (next: nat)
      requires Valid() && m < |s| && t in clientMap && clientMap[t] == Partly(s, m, aborted)
      requires i == |Live(s[..m], aborted)| && (s[m].abort <==> s[m] in aborted)
      modifies this`clientMap, this`clientUuidMap, Clients()
      ensures Valid() && OnlyRemovals() && OtherLists(old(clientMap), clientMap, t)
      ensures next == |Live(s[..m + 1], aborted)| && clientMap[t] == Partly(s, m + 1, aborted)
    {
      assert ListOk(View(), t);
      ClearOne(s, Live(s[..m], aborted), aborted, m);
      next := ClearPosition(t, i);
    }

    /** Clears one type's list, removing in place; the position stays put after a removal. */
    method ClearType(t: int, ghost aborted: set<ClientInfo>)
      requires Valid() && t in clientMap && forall c :: c in List(View(), t) ==> (c.abort <==> c in aborted)
      modifies this`clientMap, this`clientUuidMap, Clients()
      ensures Valid() && OnlyRemovals() && OtherLists(old(clientMap), clientMap, t)
      ensures clientMap[t] == Live(old(clientMap[t]), aborted)
    {
      ghost var s, m := clientMap[t], 0;
      var i := 0;
      PartlyEnds(s, aborted);
      while i < |clientMap[t]|
        invariant Valid() && OnlyRemovals() && OtherLists(old(clientMap), clientMap, t)
        invariant m <= |s| && i == |Live(s[..m], aborted)| && clientMap[t] == Partly(s, m, aborted)
        decreases |s| - m
      {
        assert m < |s| && Partly(s, m, aborted)[i] == s[m] && s[m] in s;
        ListMember(t, i);
        i := ClearNext(t, i, s, m, aborted);
        m := m + 1;
      }
    }

    /** The clients still listed were aborted at first if and only if they are now. */
    lemma FlagsOfList(t: int, first: Indexes, aborted: set<ClientInfo>)
      requires Valid() && Flagged(first, aborted)
      ensures forall c :: c in List(View(), t) ==> (c.abort <==> c in aborted)
    {
      ListsAreOfClients(t);
    }

    /** Clears one more type. */
    method ClearKey(t: int, ghost types: seq<int>, ghost first: Indexes, ghost aborted: set<ClientInfo>)
      requires Valid() && t in clientMap && t !in types && Flagged(first, aborted)
      requires ListsCleared(first, View(), aborted, types)
      modifies this`clientMap, this`clientUuidMap, Clients()
      ensures Valid() && clientMap.Keys == old(clientMap.Keys) && Flagged(first, aborted) && Clients() <= old(Clients())
      ensures ListsCleared(first, View(), aborted, types + [t])
    {
      ghost var mid := View();
      FlagsOfList(t, first, aborted);
      ClearType(t, aborted);
      ClearedNext(first, mid, View(), aborted, types, t);
    }

    method ClearTypes(keys: seq<int>, ghost aborted: set<ClientInfo>)
      requires Valid() && aborted == Aborted() && InOrder(keys, clientMap.Keys)
      modifies this`clientMap, this`clientUuidMap, Clients()
      ensures Valid() && clientMap.Keys == old(clientMap.Keys)
      ensures ListsCleared(old(View()), View(), aborted, keys)
    {
      ghost var first := View();
      for k := 0 to |keys|
        invariant Valid() && clientMap.Keys == old(clientMap.Keys) && Flagged(first, aborted)
        invariant Clients() <= old(Clients()) && ListsCleared(first, View(), aborted, keys[..k])
      {
        NextKey(keys, clientMap.Keys, k);
        ClearKey(keys[k], keys[..k], first, aborted);
      }
      assert keys[..|keys|] == keys;
    }

    /** Every list keeps exactly its clients that are not aborted, in order. */
    method ClearAborted()
      requires Valid()
      modifies this`clientMap, this`clientUuidMap, Clients()
      ensures Valid() && clientMap.Keys == old(clientMap.Keys)
      ensures ListsCleared(old(View()), View(), old(Aborted()), KeysInOrder(old(clientMap.Keys)))
      ensures Clients() == old(Clients()) - old(Aborted())
    {
      ghost var aborted := Aborted();
      var keys := KeysInOrder(clientMap.Keys);
      KeysAreInOrder(clientMap.Keys);
      ClearTypes(keys, aborted);
      ClearedClients(old(View()), View(), aborted, keys);
    }

    lemma ListsAreOfClients(t: int)
      requires Valid()
      ensures forall c :: c in List(View(), t) ==>
        c in Clients() && c.uuid in clientUuidMap && clientUuidMap[c.uuid] == c
    {
      assert ListOk(View(), t);
    }

    method PairsOf(vec: seq<ClientInfo>) returns (uuids: seq<(string, nat)>)
      ensures uuids == Pairs(vec)
    {
      uuids := [];
      for i := 0 to |vec|
        invariant uuids == Pairs(vec[..i])
      {
        uuids := uuids + [(vec[i].prettyName, vec[i].uuid)];
        assert vec[..i + 1][..i] == vec[..i];
      }
      assert vec[..|vec|] == vec;
    }

    /** `before` is the state the lists were cleared from. */
    method PairsOfAll(keys: seq<int>, ghost before: Indexes, ghost aborted: set<ClientInfo>)
      returns (uuids: seq<(string, nat)>)
      requires InOrder(keys, clientMap.Keys) && ListsCleared(before, View(), aborted, keys)
      ensures uuids == PairsOfTypes(before, aborted, keys)
    {
      uuids := [];
      for i := 0 to |keys|
        invariant uuids == PairsOfTypes(before, aborted, keys[..i])
      {
        assert keys[i] in keys;
        var pairs := PairsOf(clientMap[keys[i]]);
        assert List(View(), keys[i]) == Live(List(before, keys[i]), aborted);
        uuids := uuids + pairs;
        assert keys[..i + 1][..i] == keys[..i];
      }
      assert keys[..|keys|] == keys;
    }

    /** The name/uuid pairs of the live clients of a type, or of all types in key order if it is undefined. */
    method GetUuidForUnitType(t: int)
      returns (uuids: seq<(string, nat)>, ghost keys: seq<int>, ghost cuts: seq<nat>)
      requires Valid()
      modifies this`clientMap, this`clientUuidMap, Clients()
      ensures Valid()
      ensures uuids == if t == UNDEFINED_UNIT_TYPE
        then PairsOfTypes(old(View()), old(Aborted()), KeysInOrder(old(clientMap.Keys)))
        else Pairs(Live(List(old(View()), t), old(Aborted())))
      ensures t != UNDEFINED_UNIT_TYPE ==> PairUp(uuids, Live(List(old(View()), t), old(Aborted())))
      ensures t == UNDEFINED_UNIT_TYPE ==>
        InOrder(keys, old(clientMap.Keys)) && TypeByType(uuids, old(View()), old(Aborted()), keys, cuts)
    {
      keys := KeysInOrder(clientMap.Keys);
      uuids := CollectPairs(t);
      PairsPairUp(Live(List(old(View()), t), old(Aborted())));
      KeysAreInOrder(old(clientMap.Keys));
      cuts := PairsGoTypeByType(old(View()), old(Aborted()), keys);
    }

    method CollectPairs(t: int) returns (uuids: seq<(string, nat)>)
      requires Valid()
      modifies this`clientMap, this`clientUuidMap, Clients()
      ensures Valid()
      ensures uuids == if t == UNDEFINED_UNIT_TYPE
        then PairsOfTypes(old(View()), old(Aborted()), KeysInOrder(old(clientMap.Keys)))
        else Pairs(Live(List(old(View()), t), old(Aborted())))
    {
      ghost var before, aborted := View(), Aborted();
      var some := HasClients();
      if !some {
        NoPairs(before, aborted, KeysInOrder(clientMap.Keys));
        return [];
      }
      KeysAreInOrder(clientMap.Keys);
      ClearAborted();
      assert List(View(), t)
          == if t in KeysInOrder(clientMap.Keys) then Live(List(before, t), aborted) else List(before, t);
      if t == UNDEFINED_UNIT_TYPE {
        uuids := PairsOfAll(KeysInOrder(clientMap.Keys), before, aborted);
      } else if t in clientMap {
        uuids := PairsOf(clientMap[t]);
      } else {
        uuids := [];
      }
    }
  }
}
