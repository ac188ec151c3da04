/** The order in which a cache evicts, over whole runs: entries go in the order in which their last
    client let go of them. */
module CacheRuns {
  import opened Options
  import opened HandleTables
  import opened CacheStates

  datatype Step =
    | Inserting(item: Item)
    | LookingUp(name: Name)
    | Releasing(handle: nat)
    | Erasing(name: Name)
    | Pruning

  ghost predicate Next(c: Cache, c': Cache, step: Step) {
    Holds(c, None) &&
    match step
    case Inserting(item) => c' == Insert(c, item)
    case LookingUp(name) =>
      c' == if name in c.contents && Known(c, c.contents[name]) then Ref(c, c.contents[name]) else c
    case Releasing(h) => Known(c, h) && c.refs[h] > 0 && c.clients[h] > 0 && c' == Release(c, h)
    case Erasing(name) =>
      EraseReady(c, name);
      c' == Erase(c, name)
    case Pruning => c' == Evict(c, -1)
  }

  ghost predicate Init(c: Cache) {
    Holds(c, None) && c.lru == []
  }

  ghost predicate IsRun(states: seq<Cache>, steps: seq<Step>) {
    && |states| == |steps| + 1 && Init(states[0])
    && forall i: nat, next: nat :: i < |steps| && next == i + 1 ==> Next(states[i], states[next], steps[i])
  }

  lemma NextHolds(c: Cache, c': Cache, step: Step)
    requires Next(c, c', step)
    ensures Holds(c', None)
  {
    match step
    case Inserting(item) => InsertFits(c, item);
    case LookingUp(name) =>
      if name in c.contents && Known(c, c.contents[name]) {
        CachedIsReferred(c, name);
        RefHolds(c, c.contents[name]);
      }
    case Releasing(h) => ReleaseHolds(c, h);
    case Erasing(name) => EraseHolds(c, name);
    case Pruning => var n := EvictOldestFirst(c, -1);
  }

  lemma CachedIsReferred(c: Cache, name: Name)
    requires Holds(c, None) && name in c.contents && Known(c, c.contents[name])
    ensures c.refs[c.contents[name]] > 0
  {
    assert HandleHolds(c, c.contents[name], None);
  }

  /** When each handle last became unused: the step after which it is new among the evictable ones. */
  ghost function FreedAt(states: seq<Cache>, i: nat): map<nat, nat>
    requires i < |states|
  {
    if i == 0 then map[]
    else LetGo(FreedAt(states, i - 1), states[i - 1].lru, states[i].lru, i)
  }

  ghost function LetGo(freed: map<nat, nat>, before: seq<nat>, after: seq<nat>, now: nat): map<nat, nat> {
    map h | h in freed.Keys + Members(after) ::
      if h in after && h !in before then now else if h in freed then freed[h] else 0
  }

  ghost function Members(s: seq<nat>): set<nat> {
    set h | h in s
  }

  lemma NothingOrdered()
    ensures OrderedBy([], map[])
  {
  }

  ghost predicate OrderedBy(s: seq<nat>, freed: map<nat, nat>) {
    && (forall i :: 0 <= i < |s| ==> s[i] in freed)
    && (forall i, j :: 0 <= i < j < |s| ==> freed[s[i]] < freed[s[j]])
  }

  lemma {:induction false} WithoutOrdered(s: seq<nat>, e: nat, freed: map<nat, nat>)
    requires OrderedBy(s, freed)
    ensures OrderedBy(Without(s, e), freed) && forall h :: h in Without(s, e) ==> h in s
  {
    if s != [] && s[0] != e {
      WithoutOrdered(s[1..], e, freed);
      var rest := Without(s[1..], e);
      forall j | 0 <= j < |rest|
        ensures freed[s[0]] < freed[rest[j]]
      {
        assert rest[j] in s[1..];
      }
    }
  }

  /** The evictable handles after a step are some of those before, in their order, and perhaps the one
      that was released, last. */
  lemma StepKeepsOrder(c: Cache, c': Cache, step: Step, freed: map<nat, nat>)
    requires Next(c, c', step) && OrderedBy(c.lru, freed)
    ensures (OrderedBy(c'.lru, freed) && forall h :: h in c'.lru ==> h in c.lru)
            || (c'.lru != [] && c'.lru[..|c'.lru| - 1] == c.lru && c'.lru[|c'.lru| - 1] !in c.lru)
  {
    hide Charges, Without;
    match step
    case Inserting(item) => InsertKeepsOrder(c, item, freed);
    case LookingUp(name) =>
      if name in c.contents && Known(c, c.contents[name]) {
        WithoutOrdered(c.lru, c.contents[name], freed);
      }
    case Releasing(h) =>
      assert HandleHolds(c, h, None);
    case Erasing(name) =>
      if name in c.contents {
        assert HandleHolds(c, c.contents[name], None);
        WithoutOrdered(c.lru, c.contents[name], freed);
      }
    case Pruning => var n := EvictOldestFirst(c, -1);
  }

  lemma InsertKeepsOrder(c: Cache, item: Item, freed: map<nat, nat>)
    requires Holds(c, None) && OrderedBy(c.lru, freed)
    ensures OrderedBy(Insert(c, item).lru, freed) && forall h :: h in Insert(c, item).lru ==> h in c.lru
  {
    AllocateHolds(c, item);
    hide Holds, Evict, OrderedBy;
    if c.capacity > 0 {
      ReplaceKeepsOrder(c, item, freed);
      var n := EvictOldestFirst(Replace(c, item), c.capacity);
      RestOrdered(Replace(c, item).lru, n, freed);
    } else {
      var n := EvictOldestFirst(Allocate(c, item), c.capacity);
      RestOrdered(c.lru, n, freed);
    }
  }

  lemma RestOrdered(s: seq<nat>, n: nat, freed: map<nat, nat>)
    requires OrderedBy(s, freed) && n <= |s|
    ensures OrderedBy(s[n..], freed) && forall h :: h in s[n..] ==> h in s
  {
  }

  lemma ReplaceKeepsOrder(c: Cache, item: Item, freed: map<nat, nat>)
    requires Holds(c, None) && OrderedBy(c.lru, freed)
    ensures OrderedBy(Replace(c, item).lru, freed) && forall h :: h in Replace(c, item).lru ==> h in c.lru
  {
    hide Charges, Without;
    EnterHolds(c, item);
    if item.name in c.contents {
      var e := c.contents[item.name];
      assert HandleHolds(Enter(c, item), e, Some(e));
      FinishEraseHolds(Enter(c, item), e);
      WithoutOrdered(c.lru, e, freed);
    }
  }

  lemma LastOneIsLatest(freed: map<nat, nat>, before: seq<nat>, after: seq<nat>, now: nat)
    requires OrderedBy(before, freed) && forall h :: h in freed ==> freed[h] < now
    requires (OrderedBy(after, freed) && forall h :: h in after ==> h in before)
             || (after != [] && after[..|after| - 1] == before && after[|after| - 1] !in before)
    ensures OrderedBy(after, LetGo(freed, before, after, now))
    ensures forall h :: h in LetGo(freed, before, after, now) ==> LetGo(freed, before, after, now)[h] <= now
  {
    var now' := LetGo(freed, before, after, now);
    if OrderedBy(after, freed) && forall h :: h in after ==> h in before {
      assert forall h :: h in after ==> now'[h] == freed[h];
    } else {
      var last := |after| - 1;
      assert after == before + [after[last]];
      assert forall i :: 0 <= i < last ==> after[i] == before[i] && after[i] in before;
      assert forall h :: h in before ==> now'[h] == freed[h];
    }
  }

  /** In every run, the evictable entries stand in the order in which they were let go, so that eviction,
      which takes the first (EvictOldestFirst), takes the one unused for longest. */
  lemma {:induction false} LeastRecentlyUsedFirst(states: seq<Cache>, steps: seq<Step>, i: nat)
    requires IsRun(states, steps) && i < |states|
    ensures OrderedBy(states[i].lru, FreedAt(states, i))
    ensures forall h :: h in FreedAt(states, i) ==> FreedAt(states, i)[h] <= i
    ensures Holds(states[i], None)
  {
    hide Holds, Next, Insert, Release, Ref, Erase, Evict, LetGo, OrderedBy;
    if i == 0 {
      NothingOrdered();
    } else {
      LeastRecentlyUsedFirst(states, steps, i - 1);
      assert Next(states[i - 1], states[i], steps[i - 1]);
      NextHolds(states[i - 1], states[i], steps[i - 1]);
      StepKeepsOrder(states[i - 1], states[i], steps[i - 1], FreedAt(states, i - 1));
      LastOneIsLatest(FreedAt(states, i - 1), states[i - 1].lru, states[i].lru, i);
    }
  }
}
