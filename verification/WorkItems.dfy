/**
  Work items, the levels the translator gives them, and the batches it groups them into.
  `Levels`, `TopLevel` and `Batches` specify the loops of `Translator.CreateWorkItemsParallel`; the
  lemmas say what those batches are.
 */
module WorkItems {
  import opened Sequences

  datatype WorkItem = WorkItem(planId: int, itemId: int, dependsOn: seq<int>, op: string)

  function Ids(items: seq<WorkItem>): set<int> {
    set i | 0 <= i < |items| :: items[i].itemId
  }

  ghost predicate DistinctItems(items: seq<WorkItem>) {
    forall i, j :: 0 <= i < j < |items| ==> items[i].itemId != items[j].itemId
  }

  /** All dependencies of the item are among the items done. */
  ghost predicate Ready(item: WorkItem, done: set<int>) {
    forall i :: 0 <= i < |item.dependsOn| ==> item.dependsOn[i] in done
  }

  /** Ids are distinct and every dependency names an earlier item. */
  ghost predicate WellOrdered(items: seq<WorkItem>) {
    && DistinctItems(items)
    && forall k :: 0 <= k < |items| ==> Ready(items[k], Ids(items[..k]))
  }

  // ---- Levels ----

  function Max(a: nat, b: nat): nat {
    if a < b then b else a
  }

  /** One more than the highest level among the dependencies that have one; 0 if none has. */
  function LevelAbove(level: map<int, nat>, deps: seq<int>): nat {
    if deps == [] then 0
    else
      var before := LevelAbove(level, deps[..|deps| - 1]);
      var d := deps[|deps| - 1];
      if d in level then Max(before, level[d] + 1) else before
  }

  function Levels(items: seq<WorkItem>): map<int, nat> {
    if items == [] then map[]
    else
      var before := Levels(items[..|items| - 1]);
      var item := items[|items| - 1];
      before[item.itemId := LevelAbove(before, item.dependsOn)]
  }

  function TopLevel(items: seq<WorkItem>): nat {
    if items == [] then 0
    else
      var before := items[..|items| - 1];
      Max(TopLevel(before), LevelAbove(Levels(before), items[|items| - 1].dependsOn))
  }

  /** The items of one level, in the order of the list. */
  function AtLevel(items: seq<WorkItem>, level: map<int, nat>, l: nat): seq<WorkItem> {
    if items == [] then []
    else
      var item := items[|items| - 1];
      AtLevel(items[..|items| - 1], level, l)
      + if item.itemId in level && level[item.itemId] == l then [item] else []
  }

  function Batches(items: seq<WorkItem>): seq<seq<WorkItem>> {
    if items == [] then []
    else seq(TopLevel(items) + 1, l requires 0 <= l => AtLevel(items, Levels(items), l))
  }

  function Flatten(batches: seq<seq<WorkItem>>): seq<WorkItem> {
    if batches == [] then [] else Flatten(batches[..|batches| - 1]) + batches[|batches| - 1]
  }

  // ---- What a level is ----

  /** Batch numbers in which every dependency lies in a strictly earlier batch. */
  ghost predicate Batching(items: seq<WorkItem>, slot: map<int, nat>) {
    && Ids(items) <= slot.Keys
    && forall k, d :: 0 <= k < |items| && d in items[k].dependsOn ==>
         d in slot && slot[d] < slot[items[k].itemId]
  }

  /** Every item is just above the highest of its dependencies. */
  ghost predicate Tight(items: seq<WorkItem>, slot: map<int, nat>) {
    forall k :: 0 <= k < |items| && items[k].itemId in slot ==>
      slot[items[k].itemId] == LevelAbove(slot, items[k].dependsOn)
  }

  lemma {:induction false} LevelAboveIsMax(level: map<int, nat>, deps: seq<int>)
    ensures forall d :: d in deps && d in level ==> level[d] < LevelAbove(level, deps)
    ensures LevelAbove(level, deps) > 0 ==>
      exists d :: d in deps && d in level && level[d] + 1 == LevelAbove(level, deps)
  {
    if deps != [] {
      LevelAboveIsMax(level, deps[..|deps| - 1]);
    }
  }

  lemma IdsOfPrefix(items: seq<WorkItem>)
    requires items != []
    ensures Ids(items) == Ids(items[..|items| - 1]) + {items[|items| - 1].itemId}
  {
    var before := items[..|items| - 1];
    forall x | x in Ids(items) ensures x in Ids(before) + {items[|items| - 1].itemId} {
      var i :| 0 <= i < |items| && items[i].itemId == x;
      assert i < |before| ==> before[i].itemId == x;
    }
    forall x | x in Ids(before) ensures x in Ids(items) {
      var i :| 0 <= i < |before| && before[i].itemId == x;
      assert items[i].itemId == x;
    }
  }

  lemma WellOrderedPrefix(items: seq<WorkItem>)
    requires items != [] && WellOrdered(items)
    ensures WellOrdered(items[..|items| - 1])
    ensures items[|items| - 1].itemId !in Ids(items[..|items| - 1])
    ensures Ready(items[|items| - 1], Ids(items[..|items| - 1]))
  {
    var before := items[..|items| - 1];
    assert forall k :: 0 <= k < |before| ==> before[..k] == items[..k];
  }

  lemma {:induction false} LevelsDomain(items: seq<WorkItem>)
    ensures Levels(items).Keys == Ids(items)
  {
    if items != [] {
      LevelsDomain(items[..|items| - 1]);
      IdsOfPrefix(items);
    }
  }

  lemma {:induction false} LevelAboveAgrees(level: map<int, nat>, other: map<int, nat>, deps: seq<int>)
    requires forall d :: d in deps ==> d in level && d in other && level[d] == other[d]
    ensures LevelAbove(level, deps) == LevelAbove(other, deps)
  {
    if deps != [] {
      LevelAboveAgrees(level, other, deps[..|deps| - 1]);
    }
  }

  lemma TightBatchingExtends(before: seq<WorkItem>, level: map<int, nat>, item: WorkItem)
    requires Batching(before, level) && Tight(before, level) && level.Keys == Ids(before)
    requires item.itemId !in level && Ready(item, level.Keys)
    ensures var slot := level[item.itemId := LevelAbove(level, item.dependsOn)];
      Batching(before + [item], slot) && Tight(before + [item], slot)
  {
    var items, slot := before + [item], level[item.itemId := LevelAbove(level, item.dependsOn)];
    IdsOfPrefix(items);
    assert items[..|items| - 1] == before;
    LevelAboveIsMax(level, item.dependsOn);
    LevelAboveAgrees(level, slot, item.dependsOn);
    forall k | 0 <= k < |before| ensures slot[items[k].itemId] == LevelAbove(slot, items[k].dependsOn) {
      assert before[k].itemId in Ids(before);
      LevelAboveAgrees(level, slot, before[k].dependsOn);
    }
  }

  lemma SplitLast<T>(s: seq<T>)
    requires s != []
    ensures s == s[..|s| - 1] + [s[|s| - 1]]
  {
  }

  /** The levels are a batching, and no item could be moved one batch down. */
  lemma {:induction false} LevelsAreTightBatching(items: seq<WorkItem>)
    requires WellOrdered(items)
    ensures Batching(items, Levels(items)) && Tight(items, Levels(items))
  {
    LevelsDomain(items);
    if items != [] {
      var before, item := items[..|items| - 1], items[|items| - 1];
      WellOrderedPrefix(items);
      LevelsAreTightBatching(before);
      LevelsDomain(before);
      TightBatchingExtends(before, Levels(before), item);
      SplitLast(items);
    }
  }

  lemma ItemWithId(items: seq<WorkItem>, id: int) returns (k: nat)
    requires id in Ids(items)
    ensures k < |items| && items[k].itemId == id
  {
    k :| 0 <= k < |items| && items[k].itemId == id;
  }

  /** A tight batching puts no item later than any other batching does. */
  lemma {:induction false} TightIsLowest(items: seq<WorkItem>, level: map<int, nat>, slot: map<int, nat>, id: int)
    requires Batching(items, level) && Tight(items, level) && level.Keys == Ids(items)
    requires Batching(items, slot) && id in Ids(items)
    ensures level[id] <= slot[id]
    decreases level[id]
  {
    var k := ItemWithId(items, id);
    if level[id] > 0 {
      LevelAboveIsMax(level, items[k].dependsOn);
      var d :| d in items[k].dependsOn && d in level && level[d] + 1 == level[id];
      TightIsLowest(items, level, slot, d);
    }
  }

  /** No batching puts any item into an earlier batch than the code does. */
  lemma LevelsAreLowest(items: seq<WorkItem>, slot: map<int, nat>, id: int)
    requires WellOrdered(items) && Batching(items, slot) && id in Ids(items)
    ensures id in Levels(items) && Levels(items)[id] <= slot[id]
  {
    LevelsAreTightBatching(items);
    LevelsDomain(items);
    TightIsLowest(items, Levels(items), slot, id);
  }

  /** A list of item ids in which each is a dependency of the next. */
  ghost predicate Chain(items: seq<WorkItem>, c: seq<int>) {
    && |c| > 0
    && (forall i :: 0 <= i < |c| ==> c[i] in Ids(items))
    && forall i, k :: 0 < i < |c| && 0 <= k < |items| && items[k].itemId == c[i] ==>
         c[i - 1] in items[k].dependsOn
  }

  lemma {:induction false} TightHasChain(items: seq<WorkItem>, level: map<int, nat>, id: int) returns (c: seq<int>)
    requires DistinctItems(items) && Tight(items, level) && level.Keys == Ids(items) && id in level
    ensures Chain(items, c) && c[|c| - 1] == id && |c| == level[id] + 1
    decreases level[id]
  {
    var k := ItemWithId(items, id);
    if level[id] == 0 {
      c := [id];
    } else {
      LevelAboveIsMax(level, items[k].dependsOn);
      var d :| d in items[k].dependsOn && d in level && level[d] + 1 == level[id];
      var shorter := TightHasChain(items, level, d);
      c := shorter + [id];
      forall i, j | 0 < i < |c| && 0 <= j < |items| && items[j].itemId == c[i]
        ensures c[i - 1] in items[j].dependsOn
      {
        if i == |shorter| { assert j == k; } else { assert c[i - 1] == shorter[i - 1]; }
      }
    }
  }

  lemma {:induction false} ChainIsBounded(items: seq<WorkItem>, level: map<int, nat>, c: seq<int>)
    requires Batching(items, level) && Chain(items, c)
    ensures c[|c| - 1] in level && |c| <= level[c[|c| - 1]] + 1
  {
    if |c| > 1 {
      var shorter := c[..|c| - 1];
      assert Chain(items, shorter);
      ChainIsBounded(items, level, shorter);
      var k := ItemWithId(items, c[|c| - 1]);
      assert shorter[|shorter| - 1] == c[|shorter| - 1];
    }
  }

  /** An item's level is the length of the longest dependency chain below it. */
  lemma LevelIsLongestChain(items: seq<WorkItem>, id: int)
    requires WellOrdered(items) && id in Ids(items)
    ensures id in Levels(items)
    ensures exists c :: Chain(items, c) && c[|c| - 1] == id && |c| == Levels(items)[id] + 1
    ensures forall c :: Chain(items, c) && c[|c| - 1] == id ==> |c| <= Levels(items)[id] + 1
  {
    LevelsAreTightBatching(items);
    LevelsDomain(items);
    var level := Levels(items);
    var longest := TightHasChain(items, level, id);
    forall c | Chain(items, c) && c[|c| - 1] == id ensures |c| <= level[id] + 1 {
      ChainIsBounded(items, level, c);
    }
  }

  // ---- What the batches are ----

  lemma {:induction false} InAtLevel(items: seq<WorkItem>, level: map<int, nat>, l: nat, item: WorkItem)
    requires Ids(items) <= level.Keys
    ensures item in AtLevel(items, level, l) <==> item in items && level[item.itemId] == l
  {
    if items != [] {
      IdsOfPrefix(items);
      InAtLevel(items[..|items| - 1], level, l, item);
      assert items == items[..|items| - 1] + [items[|items| - 1]];
    }
    assert item in items ==> item.itemId in Ids(items);
  }

  lemma {:induction false} AtLevelDistinct(items: seq<WorkItem>, level: map<int, nat>, l: nat)
    requires DistinctItems(items) && Ids(items) <= level.Keys
    ensures DistinctItems(AtLevel(items, level, l))
  {
    if items != [] {
      var before, item := items[..|items| - 1], items[|items| - 1];
      IdsOfPrefix(items);
      AtLevelDistinct(before, level, l);
      forall other | other in AtLevel(before, level, l) ensures other.itemId != item.itemId {
        InAtLevel(before, level, l, other);
        var i :| 0 <= i < |before| && before[i] == other;
        assert items[i] == other;
      }
    }
  }

  lemma {:induction false} LevelsUpToTop(items: seq<WorkItem>)
    ensures forall id :: id in Levels(items) ==> Levels(items)[id] <= TopLevel(items)
  {
    if items != [] {
      LevelsUpToTop(items[..|items| - 1]);
    }
  }

  lemma {:induction false} TopLevelIsReached(items: seq<WorkItem>)
    requires WellOrdered(items)
    ensures items != [] ==> exists id :: id in Levels(items) && Levels(items)[id] == TopLevel(items)
  {
    if items != [] {
      var before, item := items[..|items| - 1], items[|items| - 1];
      WellOrderedPrefix(items);
      LevelsDomain(before);
      TopLevelIsReached(before);
      assert item.itemId in Levels(items);
      assert before == [] ==> TopLevel(before) == 0;
      if before != [] && TopLevel(items) != Levels(items)[item.itemId] {
        var id :| id in Levels(before) && Levels(before)[id] == TopLevel(before);
        assert id in Levels(items) && Levels(items)[id] == TopLevel(items);
      }
    }
  }

  /** Below a level that is used, every level is used. */
  lemma {:induction false} TightHasNoGaps(items: seq<WorkItem>, level: map<int, nat>, id: int, l: nat)
    returns (k: nat)
    requires Tight(items, level) && level.Keys == Ids(items) && id in level && l <= level[id]
    ensures k < |items| && items[k].itemId in level && level[items[k].itemId] == l
    decreases level[id]
  {
    k := ItemWithId(items, id);
    if l < level[id] {
      LevelAboveIsMax(level, items[k].dependsOn);
      var d :| d in items[k].dependsOn && d in level && level[d] + 1 == level[id];
      k := TightHasNoGaps(items, level, d, l);
    }
  }

  /** A batch holds exactly the items of its level, and every level has its batch. */
  lemma BatchesAreLevels(items: seq<WorkItem>, item: WorkItem)
    requires WellOrdered(items)
    ensures forall b :: 0 <= b < |Batches(items)| ==>
      (item in Batches(items)[b] <==>
        item in items && item.itemId in Levels(items) && Levels(items)[item.itemId] == b)
    ensures item in items ==> item.itemId in Levels(items) && Levels(items)[item.itemId] < |Batches(items)|
  {
    LevelsDomain(items);
    LevelsUpToTop(items);
    assert item in items ==> item.itemId in Ids(items);
    var level := Levels(items);
    forall b | 0 <= b < |Batches(items)|
      ensures item in Batches(items)[b] <==> item in items && item.itemId in level && level[item.itemId] == b
    {
      InAtLevel(items, level, b, item);
    }
  }

  ghost function PositionsAt(items: seq<WorkItem>, level: map<int, nat>, l: nat): set<nat> {
    set k: nat | k < |items| && items[k].itemId in level && level[items[k].itemId] == l
  }

  lemma {:induction false} AtLevelSelects(items: seq<WorkItem>, level: map<int, nat>, l: nat)
    ensures Selected(AtLevel(items, level, l), items, PositionsAt(items, level, l))
  {
    if items == [] {
      NoneSelected<WorkItem>();
      assert PositionsAt(items, level, l) == {};
    } else {
      var before, item := items[..|items| - 1], items[|items| - 1];
      var part, chosen := AtLevel(before, level, l), PositionsAt(before, level, l);
      AtLevelSelects(before, level, l);
      SplitLast(items);
      PositionsGrow(before, level, l, item);
      if item.itemId in level && level[item.itemId] == l {
        SelectedKeep(part, before, chosen, item);
        assert AtLevel(items, level, l) == part + [item];
      } else {
        SelectedSkip(part, before, chosen, item);
        assert AtLevel(items, level, l) == part;
      }
    }
  }

  lemma PositionsGrow(items: seq<WorkItem>, level: map<int, nat>, l: nat, item: WorkItem)
    ensures var chosen := PositionsAt(items, level, l);
      PositionsAt(items + [item], level, l)
      == if item.itemId in level && level[item.itemId] == l then chosen + {|items|} else chosen
  {
  }

  /** A batch lists the items of its level in the order of the linear list. */
  lemma BatchIsInListOrder(items: seq<WorkItem>, b: nat)
    requires b < |Batches(items)|
    ensures Selected(Batches(items)[b], items, PositionsAt(items, Levels(items), b))
  {
    AtLevelSelects(items, Levels(items), b);
  }

  /** A batch has no item twice. */
  lemma BatchIsDistinct(items: seq<WorkItem>, b: nat)
    requires WellOrdered(items) && b < |Batches(items)|
    ensures DistinctItems(Batches(items)[b])
  {
    LevelsDomain(items);
    AtLevelDistinct(items, Levels(items), b);
  }

  lemma NoEmptyBatch(items: seq<WorkItem>)
    requires WellOrdered(items)
    ensures forall b :: 0 <= b < |Batches(items)| ==> Batches(items)[b] != []
  {
    LevelsDomain(items);
    LevelsAreTightBatching(items);
    TopLevelIsReached(items);
    var level, top := Levels(items), TopLevel(items);
    forall b | 0 <= b < |Batches(items)| ensures Batches(items)[b] != [] {
      var id :| id in level && level[id] == top;
      var k := TightHasNoGaps(items, level, id, b);
      InAtLevel(items, level, b, items[k]);
    }
  }

  /** A dependency lies in a strictly earlier batch, so no two items of one batch depend on each other. */
  lemma DependenciesInEarlierBatches(items: seq<WorkItem>, b: nat, item: WorkItem, d: int)
    requires WellOrdered(items) && b < |Batches(items)| && item in Batches(items)[b] && d in item.dependsOn
    ensures exists a, dep :: 0 <= a < b && dep in Batches(items)[a] && dep.itemId == d
  {
    BatchesAreLevels(items, item);
    LevelsAreTightBatching(items);
    LevelsDomain(items);
    var level := Levels(items);
    assert level[d] < b;
    var k := ItemWithId(items, d);
    BatchesAreLevels(items, items[k]);
    assert items[k] in Batches(items)[level[d]];
  }

  /** The number of batches is the least that any batching needs. */
  lemma FewestBatches(items: seq<WorkItem>, slot: map<int, nat>, count: nat)
    requires WellOrdered(items) && Batching(items, slot)
    requires forall id :: id in Ids(items) ==> slot[id] < count
    ensures |Batches(items)| <= count
  {
    if items != [] {
      LevelsDomain(items);
      TopLevelIsReached(items);
      var id :| id in Levels(items) && Levels(items)[id] == TopLevel(items);
      LevelsAreLowest(items, slot, id);
    }
  }

  // ---- The batches partition the list ----

  lemma FlattenTake(batches: seq<seq<WorkItem>>, n: nat)
    requires n < |batches|
    ensures Flatten(batches[..n + 1]) == Flatten(batches[..n]) + batches[n]
  {
    assert batches[..n + 1][..n] == batches[..n];
  }

  function AtLevelsBelow(items: seq<WorkItem>, level: map<int, nat>, n: nat): seq<seq<WorkItem>> {
    seq(n, l requires 0 <= l => AtLevel(items, level, l))
  }

  lemma {:induction false} FlattenAdds(items: seq<WorkItem>, item: WorkItem, level: map<int, nat>, n: nat)
    requires item.itemId in level
    ensures multiset(Flatten(AtLevelsBelow(items + [item], level, n)))
         == multiset(Flatten(AtLevelsBelow(items, level, n)))
            + if level[item.itemId] < n then multiset{item} else multiset{}
  {
    if n > 0 {
      var a, b := AtLevelsBelow(items + [item], level, n), AtLevelsBelow(items, level, n);
      assert a[..n - 1] == AtLevelsBelow(items + [item], level, n - 1);
      assert b[..n - 1] == AtLevelsBelow(items, level, n - 1);
      FlattenAdds(items, item, level, n - 1);
      assert (items + [item])[..|items|] == items;
    }
  }

  lemma {:induction false} FlattenEmpty(level: map<int, nat>, n: nat)
    ensures Flatten(AtLevelsBelow([], level, n)) == []
  {
    if n > 0 {
      assert AtLevelsBelow([], level, n)[..n - 1] == AtLevelsBelow([], level, n - 1);
      FlattenEmpty(level, n - 1);
    }
  }

  lemma {:induction false} FlattenIsPermutation(items: seq<WorkItem>, level: map<int, nat>, n: nat)
    requires Ids(items) <= level.Keys && forall id :: id in Ids(items) ==> level[id] < n
    ensures multiset(Flatten(AtLevelsBelow(items, level, n))) == multiset(items)
  {
    if items == [] {
      FlattenEmpty(level, n);
    } else {
      var before, item := items[..|items| - 1], items[|items| - 1];
      assert items == before + [item] && item.itemId in Ids(items);
      IdsOfPrefix(items);
      FlattenIsPermutation(before, level, n);
      FlattenAdds(before, item, level, n);
    }
  }

  /** Grouping loses, duplicates and invents nothing. */
  lemma BatchesPartition(items: seq<WorkItem>)
    requires WellOrdered(items)
    ensures multiset(Flatten(Batches(items))) == multiset(items)
  {
    if items != [] {
      LevelsDomain(items);
      LevelsUpToTop(items);
      FlattenIsPermutation(items, Levels(items), TopLevel(items) + 1);
      assert Batches(items) == AtLevelsBelow(items, Levels(items), TopLevel(items) + 1);
    }
  }
}
