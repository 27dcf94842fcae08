/**
  The completion tracker: a monitor on which one side marks items completed and several waiters consume
  completions. Every method body runs under the tracker's mutex, so a history is a sequence of atomic
  steps; a wait step happens when its predicate holds.
 */
module CompletionTracker {

  /** Plan id and node id. */
  type Id = (int, int)

  /** `WaitTrue` and `WaitFalse` are waits that returned true and false. */
  datatype Event = Mark(id: Id) | WaitTrue(ids: seq<Id>) | WaitFalse(ids: seq<Id>) | Stop

  datatype State = State(completed: set<Id>, stopped: bool)

  const INITIAL := State({}, false)

  predicate AllCompleted(s: State, ids: seq<Id>) {
    forall i :: 0 <= i < |ids| ==> ids[i] in s.completed
  }

  predicate Enabled(s: State, e: Event) {
    match e
    case WaitTrue(ids) => !s.stopped && AllCompleted(s, ids)
    case WaitFalse(_) => s.stopped
    case _ => true
  }

  function Next(s: State, e: Event): State {
    match e
    case Mark(id) => s.(completed := s.completed + {id})
    case WaitTrue(ids) => s.(completed := s.completed - set id | id in ids)
    case WaitFalse(_) => s
    case Stop => s.(stopped := true)
  }

  function After(h: seq<Event>): State {
    if h == [] then INITIAL else Next(After(h[..|h| - 1]), h[|h| - 1])
  }

  /** A history that can happen. */
  ghost predicate Legal(h: seq<Event>) {
    forall i :: 0 <= i < |h| ==> Enabled(After(h[..i]), h[i])
  }

  // ---- The monitor ----

  class WorkCompletionTracker {
    var completed: set<Id>
    var stopped: bool
    ghost var history: seq<Event>

    ghost predicate Valid()
      reads this
    {
      Legal(history) && State(completed, stopped) == After(history)
    }

    constructor ()
      ensures Valid() && history == []
    {
      completed, stopped, history := {}, false, [];
    }

    method MarkCompleted(planId: int, nodeId: int)
      requires Valid()
      modifies this
      ensures Valid() && history == old(history) + [Mark((planId, nodeId))]
    {
      LegalExtends(history, Mark((planId, nodeId)));
      completed := completed + {(planId, nodeId)};
      history := history + [Mark((planId, nodeId))];
    }

    /** The condition variable lets the caller through only when the wait predicate holds. */
    method WaitNextCompletions(ids: seq<Id>) returns (ok: bool)
      requires Valid()
      requires stopped || AllCompleted(State(completed, stopped), ids)
      modifies this
      ensures Valid() && ok == !old(stopped)
      ensures history == old(history) + [if ok then WaitTrue(ids) else WaitFalse(ids)]
    {
      if stopped {
        LegalExtends(history, WaitFalse(ids));
        history := history + [WaitFalse(ids)];
        return false;
      }
      LegalExtends(history, WaitTrue(ids));
      for i := 0 to |ids|
        invariant completed == old(completed) - set id | id in ids[..i]
        invariant stopped == old(stopped) && history == old(history)
      {
        assert ids[..i + 1] == ids[..i] + [ids[i]];
        completed := completed - {ids[i]};
      }
      assert ids[..|ids|] == ids;
      history := history + [WaitTrue(ids)];
      return true;
    }

    method Stop()
      requires Valid()
      modifies this
      ensures Valid() && stopped && history == old(history) + [Event.Stop]
    {
      LegalExtends(history, Event.Stop);
      stopped := true;
      history := history + [Event.Stop];
    }
  }

  lemma LegalExtends(h: seq<Event>, e: Event)
    requires Legal(h) && Enabled(After(h), e)
    ensures Legal(h + [e]) && After(h + [e]) == Next(After(h), e)
  {
    var h' := h + [e];
    assert h'[..|h|] == h;
    forall i | 0 <= i < |h'| ensures Enabled(After(h'[..i]), h'[i]) {
      if i < |h| { assert h'[..i] == h[..i]; }
    }
  }

  lemma LegalPrefix(h: seq<Event>)
    requires Legal(h) && h != []
    ensures Legal(h[..|h| - 1]) && Enabled(After(h[..|h| - 1]), h[|h| - 1])
  {
    var before := h[..|h| - 1];
    forall i | 0 <= i < |before| ensures Enabled(After(before[..i]), before[i]) {
      assert before[..i] == h[..i];
    }
  }

  // ---- What every history keeps ----

  predicate Consumes(e: Event, id: Id) {
    e.WaitTrue? && id in e.ids
  }

  /** The latest event about `id` is a mark: marked at `i`, not consumed since. */
  ghost predicate MarkedLast(h: seq<Event>, id: Id) {
    exists i :: 0 <= i < |h| && h[i] == Mark(id) && forall j :: i < j < |h| ==> !Consumes(h[j], id)
  }

  /** The completed set is exactly the ids whose latest event is a mark rather than a successful wait. */
  lemma {:induction false} CompletedIffMarkedLast(h: seq<Event>, id: Id)
    ensures id in After(h).completed <==> MarkedLast(h, id)
  {
    if h != [] {
      var before, e := h[..|h| - 1], h[|h| - 1];
      CompletedIffMarkedLast(before, id);
      assert h == before + [e];
      if MarkedLast(before, id) && !Consumes(e, id) {
        var i :| 0 <= i < |before| && before[i] == Mark(id)
                 && forall j :: i < j < |before| ==> !Consumes(before[j], id);
        assert h[i] == Mark(id) && forall j :: i < j < |h| ==> !Consumes(h[j], id);
      }
      if MarkedLast(h, id) && e != Mark(id) {
        var i :| 0 <= i < |h| && h[i] == Mark(id) && forall j :: i < j < |h| ==> !Consumes(h[j], id);
        assert before[i] == Mark(id) && forall j :: i < j < |before| ==> !Consumes(before[j], id);
      }
    }
  }

  /** So a successful wait takes only ids marked since they were last taken. */
  lemma WaitTakesFreshMarks(h: seq<Event>, i: nat, id: Id)
    requires Legal(h) && i < |h| && Consumes(h[i], id)
    ensures MarkedLast(h[..i], id) && !MarkedLast(h[..i + 1], id)
  {
    assert Enabled(After(h[..i]), h[i]);
    CompletedIffMarkedLast(h[..i], id);
    CompletedIffMarkedLast(h[..i + 1], id);
    assert h[..i + 1][..i] == h[..i];
  }

  function Marks(h: seq<Event>, id: Id): nat {
    if h == [] then 0 else Marks(h[..|h| - 1], id) + if h[|h| - 1] == Mark(id) then 1 else 0
  }

  function Waits(h: seq<Event>, id: Id): nat {
    if h == [] then 0 else Waits(h[..|h| - 1], id) + if Consumes(h[|h| - 1], id) then 1 else 0
  }

  /** Successful waits never outnumber marks; a pending completion is a mark not yet matched. */
  lemma {:induction false} WaitsNeverOutnumberMarks(h: seq<Event>, id: Id)
    requires Legal(h)
    ensures Waits(h, id) + (if id in After(h).completed then 1 else 0) <= Marks(h, id)
  {
    if h != [] {
      LegalPrefix(h);
      WaitsNeverOutnumberMarks(h[..|h| - 1], id);
    }
  }

  lemma {:induction false} StaysStopped(h: seq<Event>, i: nat)
    requires i < |h| && h[i] == Stop
    ensures After(h).stopped
  {
    if i < |h| - 1 {
      StaysStopped(h[..|h| - 1], i);
    }
  }

  /** After stop every wait returns false. */
  lemma NoWaitSucceedsAfterStop(h: seq<Event>, i: nat, j: nat)
    requires Legal(h) && i < j < |h| && h[i] == Stop
    ensures !h[j].WaitTrue?
  {
    StaysStopped(h[..j], i);
    assert Enabled(After(h[..j]), h[j]);
  }

  /** Two lists of ids have none in common. */
  ghost predicate Apart(a: seq<Id>, b: seq<Id>) {
    forall id :: id in a ==> id !in b
  }

  /**
    Waiters with disjoint ids never take each other's completions: a wait that could go on still can
    after any further marks and waits of others, until the tracker is stopped.
   */
  lemma {:induction false} WaitStaysEnabled(h: seq<Event>, more: seq<Event>, ids: seq<Id>)
    requires Enabled(After(h), WaitTrue(ids))
    requires forall i :: 0 <= i < |more| ==> more[i] != Stop && (more[i].WaitTrue? ==> Apart(ids, more[i].ids))
    ensures Enabled(After(h + more), WaitTrue(ids))
  {
    if more == [] {
      assert h + more == h;
    } else {
      var before, e := more[..|more| - 1], more[|more| - 1];
      WaitStaysEnabled(h, before, ids);
      assert (h + more)[..|h + more| - 1] == h + before;
      assert e == more[|more| - 1];
      forall i | 0 <= i < |ids| ensures ids[i] in After(h + more).completed {
        assert ids[i] in ids;
      }
    }
  }
}
