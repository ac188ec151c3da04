/** A reader searching the skip list while a writer inserts into it.  Each load and each store of a
    link is one step, and they interleave in any order. */
module SkipListReaders {
  import opened SkipLists

  /** An insertion under way: the new node, the level being linked, the predecessors found, and
      whether the node's own link at that level has been set. */
  datatype Writer =
    | Idle
    | Linking(x: nat, height: nat, level: nat, prev: seq<nat>, ownSet: bool)

  datatype Reader =
    | Resting
    | Searching(target: Key, x: nat, level: nat)
    | Found(target: Key, link: Link)

  /** `chains` says which nodes are on each level, `before` which were when the insertion began. */
  datatype State = State(
    keys: seq<Key>, next: Links, maxHeight: nat,
    writer: Writer, reader: Reader,
    chains: seq<seq<nat>>, before: seq<seq<nat>>)

  datatype Step =
    | BeginInsert(key: Key, height: nat, prev: seq<nat>)
    | SetOwnLink
    | PublishLink
    | BeginSearch(target: Key, level: nat)
    | Load

  /** What a reader does with the link it loads. */
  function AfterLoad(keys: seq<Key>, r: Reader, link: Link): Reader
    requires r.Searching? && (link.To? ==> link.node < |keys|)
  {
    if link.To? && keys[link.node] < r.target then r.(x := link.node)
    else if r.level == 0 then Found(r.target, link)
    else r.(level := r.level - 1)
  }

  ghost predicate Next(st: State, st': State, step: Step) {
    match step
    case BeginInsert(key, height, prev) =>
      // The writer is alone, so its search sees a list at rest
      && st.writer.Idle? && 1 <= height <= MAX_HEIGHT == |prev| == |st.chains|
      && (forall l :: 0 <= l < height ==> PlaceFor(st.keys, st.chains[l], key, prev[l]))
      && st' == st.(keys := st.keys + [key], next := st.next + [seq(height, _ => Unset)],
                    maxHeight := if height > st.maxHeight then height else st.maxHeight,
                    writer := Linking(|st.keys|, height, 0, prev, false), before := st.chains)
    case SetOwnLink =>
      && st.writer.Linking? && !st.writer.ownSet
      && var w := st.writer;
      && w.level < |w.prev| && CanLoad(st.next, w.prev[w.level], w.level) && CanLoad(st.next, w.x, w.level)
      && st' == st.(next := SetNext(st.next, w.x, w.level, st.next[w.prev[w.level]][w.level]),
         writer := w.(ownSet := true))
    case PublishLink =>
      && st.writer.Linking? && st.writer.ownSet
      && var w := st.writer;
      && w.level < |w.prev| && CanLoad(st.next, w.prev[w.level], w.level)
      && w.level < |st.chains| && w.x < |st.keys| && (forall i :: 0 <= i < |st.chains[w.level]| ==>
           st.chains[w.level][i] < |st.keys|)
      && var p := Rank(st.keys, st.chains[w.level], st.keys[w.x]);
      && st' == st.(next := SetNext(st.next, w.prev[w.level], w.level, To(w.x)),
                    chains := st.chains[w.level := InsertAt(st.chains[w.level], p, w.x)],
                    writer := if w.level + 1 == w.height then Idle else w.(level := w.level + 1, ownSet := false))
    case BeginSearch(target, level) =>
      // The height may be read stale; any level below it will do
      !st.reader.Searching? && level < st.maxHeight && st' == st.(reader := Searching(target, HEAD, level))
    case Load =>
      && st.reader.Searching?
      && var r := st.reader;
      && CanLoad(st.next, r.x, r.level)
      && var link := st.next[r.x][r.level];
      && (link.To? ==> link.node < |st.keys|)
      && st' == st.(reader := AfterLoad(st.keys, r, link))
  }

  ghost predicate CanLoad(next: Links, x: nat, level: nat) {
    x < |next| && level < |next[x]|
  }

  ghost predicate Init(st: State) {
    && st.keys == [0] && st.next == [seq(MAX_HEIGHT, _ => End)] && st.maxHeight == 1
    && st.writer == Idle && st.reader == Resting
    && st.chains == seq(MAX_HEIGHT, _ => []) && st.before == st.chains
  }

  // ------------------------------------------------------------------ the invariant

  ghost predicate WriterHolds(st: State) {
    match st.writer
    case Idle => AtFullHeight(st.next, st.chains)
    case Linking(x, height, level, prev, ownSet) =>
      && Partial(st.keys, st.next, st.chains, st.before, x, level, height) && level < height <= |prev|
      && (forall l :: level <= l < height ==> PlaceFor(st.keys, st.before[l], st.keys[x], prev[l]))
      && (ownSet ==> OwnLinkSet(st.keys, st.next, st.before[level], x, level))
  }

  ghost predicate OwnLinkSet(keys: seq<Key>, next: Links, before: seq<nat>, x: nat, level: nat) {
    && CanLoad(next, x, level) && x < |keys| && (forall i :: 0 <= i < |before| ==> before[i] < |keys|)
    && next[x][level] == LinkAt(before, Rank(keys, before, keys[x]))
  }

  /** The reader stands before its target, on the level it is searching. */
  ghost predicate ReaderHolds(keys: seq<Key>, chains: seq<seq<nat>>, r: Reader) {
    r.Searching? ==>
      && r.level < |chains|
      && (r.x == HEAD || (r.x in chains[r.level] && r.x < |keys| && keys[r.x] < r.target))
  }

  ghost predicate Inv(st: State) {
    && |st.chains| == MAX_HEIGHT && Levels(st.keys, st.next, st.chains)
    && st.maxHeight <= MAX_HEIGHT
    && WriterHolds(st)
    && ReaderHolds(st.keys, st.chains, st.reader)
  }

  lemma InitInv(st: State)
    requires Init(st)
    ensures Inv(st)
  {
  }

  /** The reader's place on its level, whatever has been published meanwhile. */
  lemma ReaderPlace(keys: seq<Key>, next: Links, chains: seq<seq<nat>>, r: Reader) returns (p: nat)
    requires |chains| == MAX_HEIGHT && Levels(keys, next, chains) && ReaderHolds(keys, chains, r) && r.Searching?
    ensures Chained(keys, next, chains[r.level], r.level)
    ensures p <= |chains[r.level]| && r.x == NodeAt(chains[r.level], p)
    ensures p > 0 ==> keys[chains[r.level][p - 1]] < r.target
    ensures CanLoad(next, r.x, r.level) && next[r.x][r.level] == LinkAt(chains[r.level], p)
  {
    assert Chained(keys, next, chains[r.level], r.level);
    if r.x == HEAD {
      p := 0;
    } else {
      var i :| 0 <= i < |chains[r.level]| && chains[r.level][i] == r.x;
      p := i + 1;
    }
    assert LinksOn(next, chains[r.level], p, r.level);
  }

  /** A reader never meets a link that is not set, and when its search ends it has the first node at
      or after its target among all nodes then on the bottom level. */
  lemma LoadHolds(keys: seq<Key>, next: Links, chains: seq<seq<nat>>, r: Reader)
    requires |chains| == MAX_HEIGHT && Levels(keys, next, chains) && ReaderHolds(keys, chains, r) && r.Searching?
    ensures CanLoad(next, r.x, r.level) && !next[r.x][r.level].Unset?
    ensures next[r.x][r.level].To? ==> next[r.x][r.level].node < |keys|
    ensures var r' := AfterLoad(keys, r, next[r.x][r.level]);
            && ReaderHolds(keys, chains, r')
            && (r'.Found? ==> Chained(keys, next, chains[0], 0)
                              && r'.link == LinkAt(chains[0], Rank(keys, chains[0], r.target)))
  {
    hide Levels, Chained, Rank;
    var p := ReaderPlace(keys, next, chains, r);
    var chain, link := chains[r.level], next[r.x][r.level];
    LinkInChain(keys, next, chain, r.level, p);
    if !(link.To? && keys[link.node] < r.target) {
      RankIs(keys, next, chain, r.level, r.target, p);
      if r.level > 0 {
        var q := PlaceBelow(keys, next, chains, r.level, p);
      }
    }
  }

  lemma LinkInChain(keys: seq<Key>, next: Links, chain: seq<nat>, level: nat, p: nat)
    requires Chained(keys, next, chain, level) && p <= |chain|
    ensures LinkAt(chain, p).To? ==> LinkAt(chain, p).node < |keys| && LinkAt(chain, p).node in chain
    ensures p > 0 ==> chain[p - 1] < |keys| && chain[p - 1] in chain
    ensures forall i :: 0 <= i < |chain| ==> chain[i] < |keys|
  {
  }

  lemma LoadInv(st: State, st': State)
    requires Inv(st) && Next(st, st', Load)
    ensures Inv(st')
  {
    hide Levels, AtFullHeight, Partial, ReaderHolds;
    LoadHolds(st.keys, st.next, st.chains, st.reader);
  }

  lemma BeginSearchInv(st: State, st': State, target: Key, level: nat)
    requires Inv(st) && Next(st, st', BeginSearch(target, level))
    ensures Inv(st')
  {
    hide Levels, AtFullHeight, Partial;
  }

  lemma BeginInsertInv(st: State, st': State, key: Key, height: nat, prev: seq<nat>)
    requires Inv(st) && Next(st, st', BeginInsert(key, height, prev))
    ensures Inv(st')
  {
    hide Levels, AtFullHeight, PlaceFor, Partial;
    NewNode(st.keys, st.next, st.chains, key, height);
    StartPartial(st.keys, st.next, st.chains, key, height, prev);
  }

  lemma OwnLink(st: State, w: Writer)
    requires Inv(st) && st.writer == w && w.Linking?
    ensures CanLoad(st.next, w.prev[w.level], w.level) && CanLoad(st.next, w.x, w.level) && w.prev[w.level] != w.x
    ensures var next := SetNext(st.next, w.x, w.level, st.next[w.prev[w.level]][w.level]);
            && Partial(st.keys, next, st.chains, st.before, w.x, w.level, w.height)
            && OwnLinkSet(st.keys, next, st.before[w.level], w.x, w.level)
  {
    assert PlaceFor(st.keys, st.before[w.level], st.keys[w.x], w.prev[w.level]);
    OwnLinkPartial(st.keys, st.next, st.chains, st.before, w.x, w.level, w.height, w.prev[w.level]);
    hide Levels, Rank;
  }

  lemma SetOwnLinkInv(st: State, st': State)
    requires Inv(st) && Next(st, st', SetOwnLink)
    ensures Inv(st')
  {
    OwnLink(st, st.writer);
    hide Levels, AtFullHeight, PlaceFor;
  }

  lemma Published(st: State, w: Writer)
    requires Inv(st) && st.writer == w && w.Linking? && w.ownSet
    ensures CanLoad(st.next, w.prev[w.level], w.level)
    ensures forall i :: 0 <= i < |st.chains[w.level]| ==> st.chains[w.level][i] < |st.keys|
    ensures var p := Rank(st.keys, st.chains[w.level], st.keys[w.x]);
            Partial(st.keys, SetNext(st.next, w.prev[w.level], w.level, To(w.x)),
              st.chains[w.level := InsertAt(st.chains[w.level], p, w.x)],
                    st.before, w.x, w.level + 1, w.height)
  {
    assert PlaceFor(st.keys, st.before[w.level], st.keys[w.x], w.prev[w.level]);
    PublishPartial(st.keys, st.next, st.chains, st.before, w.x, w.level, w.height, w.prev[w.level]);
  }

  lemma PublishLinkInv(st: State, st': State)
    requires Inv(st) && Next(st, st', PublishLink)
    ensures Inv(st')
  {
    hide Levels, AtFullHeight, PlaceFor, Rank;
    var w := st.writer;
    Published(st, w);
    if w.level + 1 == w.height {
      FinishPartial(st'.keys, st'.next, st'.chains, st.before, w.x, w.height);
    }
    InsertKeeps(st.chains[w.level], Rank(st.keys, st.chains[w.level], st.keys[w.x]), w.x);
  }

  lemma NextInv(st: State, st': State, step: Step)
    requires Inv(st) && Next(st, st', step)
    ensures Inv(st')
  {
    hide Inv, Next;
    match step
    case BeginInsert(key, height, prev) => BeginInsertInv(st, st', key, height, prev);
    case SetOwnLink => SetOwnLinkInv(st, st');
    case PublishLink => PublishLinkInv(st, st');
    case BeginSearch(target, level) => BeginSearchInv(st, st', target, level);
    case Load => LoadInv(st, st');
  }

  // ------------------------------------------------------------------ over whole runs

  ghost predicate IsRun(states: seq<State>, steps: seq<Step>) {
    && |states| == |steps| + 1
    && Init(states[0])
    && forall i: nat, next: nat :: i < |steps| && next == i + 1 ==> Next(states[i], states[next], steps[i])
  }

  lemma {:induction false} RunInv(states: seq<State>, steps: seq<Step>, i: nat)
    requires IsRun(states, steps) && i < |states|
    ensures Inv(states[i])
  {
    hide Inv, Next;
    if i == 0 {
      InitInv(states[0]);
    } else {
      RunInv(states, steps, i - 1);
      NextInv(states[i - 1], states[i], steps[i - 1]);
    }
  }

  /** A key is in the list once its node is on the bottom level. */
  ghost predicate Present(st: State, key: Key) {
    st.chains != [] && exists n :: n in st.chains[0] && n < |st.keys| && st.keys[n] == key
  }

  lemma PresentStays(st: State, st': State, step: Step, key: Key)
    requires Inv(st) && Next(st, st', step) && Present(st, key)
    ensures Present(st', key)
  {
    hide Levels, AtFullHeight, PlaceFor, Partial, Rank;
    var n :| n in st.chains[0] && n < |st.keys| && st.keys[n] == key;
    if step.PublishLink? {
      var w := st.writer;
      InsertKeeps(st.chains[w.level], Rank(st.keys, st.chains[w.level], st.keys[w.x]), w.x);
    }
    assert n in st'.chains[0] && n < |st'.keys| && st'.keys[n] == key;
  }

  lemma {:induction false} PresentForGood(states: seq<State>, steps: seq<Step>, i: nat, j: nat, key: Key)
    requires IsRun(states, steps) && i <= j < |states| && Present(states[i], key)
    ensures Present(states[j], key)
  {
    hide Next, Inv, Present;
    if i < j {
      PresentForGood(states, steps, i, j - 1, key);
      RunInv(states, steps, j - 1);
      PresentStays(states[j - 1], states[j], steps[j - 1], key);
    }
  }

  /** The load that ends a search yields exactly the first node at or after the target among those
      then in the list. */
  lemma SearchResult(states: seq<State>, steps: seq<Step>, j: nat)
    requires IsRun(states, steps) && j < |steps| && steps[j].Load? && states[j + 1].reader.Found?
    ensures var link, st := states[j + 1].reader.link, states[j];
            && states[j].reader.Searching?
            && !link.Unset? && (link.To? ==> link.node < |st.keys| && Present(st, st.keys[link.node])
                                             && st.keys[link.node] >= st.reader.target)
            && (forall key :: Present(st, key) && key >= st.reader.target ==> link.To? && st.keys[link.node] <= key)
  {
    RunInv(states, steps, j);
    assert Next(states[j], states[j + 1], steps[j]);
    FoundFirst(states[j], states[j + 1]);
  }

  lemma FoundFirst(st: State, st': State)
    requires Inv(st) && Next(st, st', Load) && st'.reader.Found?
    ensures var link := st'.reader.link;
            && !link.Unset? && (link.To? ==> link.node < |st.keys| && Present(st, st.keys[link.node])
                                             && st.keys[link.node] >= st.reader.target)
            && (forall key :: Present(st, key) && key >= st.reader.target ==> link.To? && st.keys[link.node] <= key)
  {
    LoadHolds(st.keys, st.next, st.chains, st.reader);
    hide Levels, AtFullHeight, WriterHolds, Rank;
    var r := Rank(st.keys, st.chains[0], st.reader.target);
    forall key | Present(st, key) && key >= st.reader.target
      ensures r < |st.chains[0]| && st.keys[st.chains[0][r]] <= key
    {
      var n :| n in st.chains[0] && n < |st.keys| && st.keys[n] == key;
      var i :| 0 <= i < |st.chains[0]| && st.chains[0][i] == n;
      assert r <= i;
    }
  }

  lemma {:induction false} SameTarget(states: seq<State>, steps: seq<Step>, i: nat, j: nat)
    requires IsRun(states, steps) && i < j < |states|
    requires steps[i].BeginSearch? && forall k :: i < k < j ==> !steps[k].BeginSearch?
    ensures !states[j].reader.Resting? && states[j].reader.target == steps[i].target
  {
    assert Next(states[j - 1], states[j], steps[j - 1]);
    if i < j - 1 {
      SameTarget(states, steps, i, j - 1);
    }
  }

  /** No key fully inserted before a search began is passed over, whatever was inserted while it
      ran. */
  lemma NothingSkipped(states: seq<State>, steps: seq<Step>, i: nat, j: nat, key: Key)
    requires IsRun(states, steps) && i < j < |steps|
    requires steps[i].BeginSearch? && forall k :: i < k < j ==> !steps[k].BeginSearch?
    requires steps[j].Load? && states[j + 1].reader.Found?
    requires Present(states[i], key) && key >= steps[i].target
    ensures var link := states[j + 1].reader.link; link.To? && link.node < |states[j].keys|
                                                   && states[j].keys[link.node] <= key
  {
    hide Present, Next;
    PresentForGood(states, steps, i, j, key);
    SearchResult(states, steps, j);
    SameTarget(states, steps, i, j);
  }

  /** Each load takes the search further along its level or down one, so a search that is not
      overtaken by insertions ends. */
  lemma LoadsProgress(st: State, st': State)
    requires Inv(st) && Next(st, st', Load) && st'.reader.Searching?
    ensures st'.reader.level <= st.reader.level
    ensures st'.reader.level == st.reader.level ==> PlacesLeft(st', st'.reader) < PlacesLeft(st, st.reader)
  {
    hide Levels, AtFullHeight, WriterHolds, Rank;
    var r, r' := st.reader, st'.reader;
    var p := ReaderPlace(st.keys, st.next, st.chains, r);
    if r'.level == r.level {
      var chain := st.chains[r.level];
      assert r'.x == chain[p];
      assert p > 0 ==> st.keys[chain[p - 1]] < st.keys[chain[p]];
      assert p + 1 < |chain| ==> st.keys[chain[p]] < st.keys[chain[p + 1]];
      RankIs(st.keys, st.next, chain, r.level, st.keys[r'.x] + 1, p + 1);
      if p > 0 {
        RankIs(st.keys, st.next, chain, r.level, st.keys[r.x] + 1, p);
      }
    }
  }

  /** How many nodes of its level lie ahead of the reader. */
  ghost function PlacesLeft(st: State, r: Reader): nat
    requires r.Searching?
  {
    if r.level < |st.chains| && (forall i :: 0 <= i < |st.chains[r.level]| ==> st.chains[r.level][i] < |st.keys|) then
      |st.chains[r.level]| - if r.x < |st.keys| && r.x != HEAD then Rank(st.keys, st.chains[r.level], st.keys[r.x] + 1)
        else 0
    else 0
  }
}
