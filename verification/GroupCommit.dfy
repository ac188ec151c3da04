/** The writer queue.  Threads wait on the queue; the one at its head leads: it makes room, takes a
    prefix of the queue as a commit group, drops the mutex to log and apply the group's batch, and
    then tells the members and wakes the next head.  Every region that holds the mutex is one step;
    waiting threads may wake at any time for no reason. */
module GroupCommit {
  import opened Options
  import opened WriteBatches
  import opened BatchGroups

  datatype Record = Record(first: nat, ops: seq<BatchOp>)

  /** A leader's group: its writers, what it logs, and whether it was gathered in the temporary
      batch or is the leader's own. */
  datatype Group = Group(members: seq<nat>, record: Record, gathered: bool)

  /** Where the leader stands.  It holds no mutex while logging and applying, nor while it waits
      for room. */
  datatype Phase =
    | MakingRoom
    | Logging(group: Group)
    | Applying(group: Group)
    | Ending(group: Group, ok: bool, logged: bool, applied: Option<nat>, syncFailed: bool)

  datatype Leader = Leader(id: nat, phase: Phase)

  datatype Thread =
    | Waiting(signalled: bool, done: Option<bool>)
    | Running
    | Returned(ok: bool)

  /** A group that has ended, and how. */
  datatype Outcome = Outcome(group: Group, ok: bool, logged: bool, applied: Option<nat>, syncFailed: bool)

  datatype State = State(
    queue: seq<nat>,
    requests: map<nat, Request>,
    threads: map<nat, Thread>,
    leader: Option<Leader>,
    tmpBatch: seq<BatchOp>,
    lastSequence: nat,
    log: seq<Record>,
    memtable: seq<Record>,
    backgroundError: bool,
    arrived: seq<nat>,
    ended: seq<Outcome>,
    logStart: nat,
    synced: set<nat>)

  function RequestsOf(requests: map<nat, Request>, ids: seq<nat>): (rs: seq<Request>)
    requires forall id :: id in ids ==> id in requests
    ensures |rs| == |ids|
  {
    seq(|ids|, i requires 0 <= i < |ids| => requests[ids[i]])
  }

  /** Position of a writer in the queue, past the end if it is not there. */
  function IndexOf(queue: seq<nat>, id: nat): (n: nat)
    ensures n <= |queue| && (n < |queue| ==> queue[n] == id) && (forall k :: 0 <= k < n ==> queue[k] != id)
  {
    if queue == [] || queue[0] == id then 0 else 1 + IndexOf(queue[1..], id)
  }

  /** Signalling a condition variable wakes its thread if it is waiting. */
  function Signal(t: Thread): Thread {
    if t.Waiting? then t.(signalled := true) else t
  }

  datatype Step =
    | Arrive(id: nat, request: Request)
    | Wake(id: nat)
    | RecordError
    | GiveUp
    | SwitchLog
    | Force
    | Choose(n: nat)
    | Log
    | LogFails
    | SyncFails
    | Apply
    | ApplyFails(n: nat)
    | End

  ghost predicate Next(st: State, st': State, step: Step) {
    match step
    case Arrive(id, request) =>
      // Enters the queue, and sleeps unless it is the head
      && id !in st.threads
      && st' == st.(queue := st.queue + [id], arrived := st.arrived + [id], requests := st.requests[id := request],
                    threads := st.threads[id := if st.queue == [] then Running else Waiting(false, None)],
                    leader := if st.queue == [] then Some(Leader(id, MakingRoom)) else st.leader)
    case Wake(id) =>
      // Signalled or not, a waiting thread may wake; it looks again at its place
      && id in st.threads && st.threads[id].Waiting?
      && var t := st.threads[id];
      && st' == (if t.done.Some? then st.(threads := st.threads[id := Returned(t.done.value)])
                 else if st.queue != [] && st.queue[0] == id then
                   st.(threads := st.threads[id := Running], leader := Some(Leader(id, MakingRoom)))
                 else st.(threads := st.threads[id := Waiting(false, None)]))
    case RecordError =>
      st' == st.(backgroundError := true)
    case GiveUp =>
      // No room could be made
      && st.leader.Some? && st.leader.value.phase.MakingRoom?
      && st' == st.(leader := Some(st.leader.value.(phase := Ending(Alone(st), false, false, None, false))))
    case SwitchLog =>
      // Making room may start another log file; what the old one holds is not synced by that
      && st.leader.Some? && st.leader.value.phase.MakingRoom?
      && st' == st.(logStart := |st.log|)
    case Force =>
      && st.leader.Some? && st.leader.value.phase.MakingRoom? && !st.backgroundError
      && st.leader.value.id in st.requests && st.requests[st.leader.value.id].ops.None?
      && st' == st.(leader := Some(st.leader.value.(phase := Ending(Alone(st), true, false, None, false))))
    case Choose(n) =>
      && st.leader.Some? && st.leader.value.phase.MakingRoom? && !st.backgroundError
      && st.queue != [] && st.leader.value.id in st.requests && st.requests[st.leader.value.id].ops.Some?
      && (forall id :: id in st.queue ==> id in st.requests)
      && IsGroup(RequestsOf(st.requests, st.queue), n)
      && st' == Chosen(st, n)
    case Log =>
      && st.leader.Some? && st.leader.value.phase.Logging?
      && var group := st.leader.value.phase.group;
      // The leader's own options say whether the log file is synced
      && st.leader.value.id in st.requests
      && st' == st.(leader := Some(st.leader.value.(phase := Applying(group))), log := st.log + [group.record],
                    synced := if st.requests[st.leader.value.id].sync
                      then st.synced + FileRecords(st.logStart, |st.log| + 1) else st.synced)
    case LogFails =>
      && st.leader.Some? && st.leader.value.phase.Logging?
      && st' == st.(leader := Some(st.leader.value.(phase :=
         Ending(st.leader.value.phase.group, false, false, None, false))))
    case SyncFails =>
      // The record may or may not be in the log after a crash
      && st.leader.Some? && st.leader.value.phase.Logging?
      && st.leader.value.id in st.requests && st.requests[st.leader.value.id].sync
      && var group := st.leader.value.phase.group;
      && st' == st.(leader := Some(st.leader.value.(phase := Ending(group, false, true, None, true))),
         log := st.log + [group.record])
    case Apply =>
      && st.leader.Some? && st.leader.value.phase.Applying?
      && var group := st.leader.value.phase.group;
      && st' == st.(leader := Some(st.leader.value.(phase :=
         Ending(group, true, true, Some(|group.record.ops|), false))),
         memtable := st.memtable + [group.record])
    case ApplyFails(n) =>
      // The operations before the one that failed are in the memtable
      && st.leader.Some? && st.leader.value.phase.Applying?
      && var group := st.leader.value.phase.group;
      && n <= |group.record.ops|
      && st' == st.(leader := Some(st.leader.value.(phase := Ending(group, false, true, Some(n), false))),
                    memtable := st.memtable + Inserted(group.record, Some(n)))
    case End =>
      && st.leader.Some? && st.leader.value.phase.Ending?
      && var e := st.leader.value.phase;
      && e.group.members != []
      && var n := IndexOf(st.queue, e.group.members[|e.group.members| - 1]) + 1;
      && n <= |st.queue|
      && st' == st.(queue := st.queue[n..],
                    threads := AfterEnd(st.threads, st.queue, n, st.leader.value.id, e.ok),
                    leader := None, tmpBatch := if e.group.gathered then [] else st.tmpBatch,
                    lastSequence := st.lastSequence + |e.group.record.ops|,
                    backgroundError := st.backgroundError || e.syncFailed,
                    ended := st.ended + [Outcome(e.group, e.ok, e.logged, e.applied, e.syncFailed)])
  }

  /** The positions of the current log file's records. */
  function FileRecords(from: nat, to: nat): (positions: set<nat>)
    ensures forall p: nat :: p in positions <==> from <= p < to
  {
    if from >= to then {} else FileRecords(from, to - 1) + {to - 1}
  }

  /** Some writer after the first brings a batch. */
  ghost predicate Gathers(rs: seq<Request>) {
    exists k :: 1 <= k < |rs| && rs[k].ops.Some?
  }

  /** The temporary batch is appended to, so what it already held would be written too. */
  ghost function Chosen(st: State, n: nat): State
    requires st.leader.Some? && n <= |st.queue| && forall id :: id in st.queue ==> id in st.requests
  {
    var rs := RequestsOf(st.requests, st.queue)[..n];
    var gathered := Gathers(rs);
    var ops := if gathered then st.tmpBatch + AllOps(rs) else AllOps(rs);
    var group := Group(st.queue[..n], Record(st.lastSequence + 1, ops), gathered);
    st.(leader := Some(st.leader.value.(phase := Logging(group))), tmpBatch := if gathered then ops else st.tmpBatch)
  }

  /** The leader by itself, with nothing to log. */
  function Alone(st: State): Group
    requires st.leader.Some?
  {
    Group([st.leader.value.id], Record(st.lastSequence + 1, []), false)
  }

  /** The popped writers are told and woken, the leader returns, and the new head is woken. */
  function AfterEnd(threads: map<nat, Thread>, queue: seq<nat>, n: nat, leader: nat, ok: bool): map<nat, Thread>
    requires n <= |queue|
  {
    map id | id in threads ::
      if id == leader then Returned(ok)
      else if id in queue[..n] then Waiting(true, Some(ok))
      else if n < |queue| && id == queue[n] then Signal(threads[id])
      else threads[id]
  }

  ghost predicate Init(st: State) {
    st == State([], map[], map[], None, [], 0, [], [], false, [], [], 0, {})
  }

  // ------------------------------------------------------------------ the invariant

  function Members(ended: seq<Outcome>): seq<nat> {
    if ended == [] then [] else Members(ended[..|ended| - 1]) + ended[|ended| - 1].group.members
  }

  function Operations(ended: seq<Outcome>): nat {
    if ended == [] then 0 else Operations(ended[..|ended| - 1]) + |ended[|ended| - 1].group.record.ops|
  }

  /** What a record leaves in the memtable when its first n operations went in. */
  function Inserted(r: Record, n: Option<nat>): seq<Record> {
    if n.None? then [] else if n.value < |r.ops| then [r.(ops := r.ops[..n.value])] else [r]
  }

  function LoggedRecords(ended: seq<Outcome>): seq<Record> {
    if ended == [] then []
    else
      var o := ended[|ended| - 1];
      LoggedRecords(ended[..|ended| - 1]) + if o.logged then [o.group.record] else []
  }

  function AppliedRecords(ended: seq<Outcome>): seq<Record> {
    if ended == [] then []
    else
      var o := ended[|ended| - 1];
      AppliedRecords(ended[..|ended| - 1]) + Inserted(o.group.record, o.applied)
  }

  ghost predicate Distinct(ids: seq<nat>) {
    forall i, j :: 0 <= i < j < |ids| ==> ids[i] != ids[j]
  }

  /** Writers in order of arrival: those whose groups have ended, group by group, then the queue. */
  ghost predicate FirstComeFirstServed(st: State) {
    && Distinct(st.arrived)
    && st.arrived == Members(st.ended) + st.queue
    && (forall id :: id in st.arrived <==> id in st.threads)
    && st.requests.Keys == st.threads.Keys
  }

  /** A group's operations are its members' batches, one after another. */
  ghost predicate GroupHolds(g: Group, requests: map<nat, Request>) {
    && g.members != []
    && (forall id :: id in g.members ==> id in requests)
    && (g.record.ops == AllOps(RequestsOf(requests, g.members)))
    && (forall id :: id in g.members && requests[id].sync ==> requests[g.members[0]].sync)
  }

  /** A successful group was applied whole, and anything applied was logged; one with nothing to log is
      a lone request without operations. */
  ghost predicate OutcomeHolds(o: Outcome, requests: map<nat, Request>) {
    && o.group.members != []
    && (forall id :: id in o.group.members ==> id in requests)
    && (o.applied.Some? ==> o.logged && o.applied.value <= |o.group.record.ops|)
    && (o.ok && o.applied.Some? ==> o.applied.value == |o.group.record.ops|)
    && (o.ok ==> !o.syncFailed)
    && (o.logged || o.ok ==> GroupHolds(o.group, requests))
    && (o.ok && o.applied.None? ==> |o.group.members| == 1 && requests[o.group.members[0]].ops.None?)
  }

  /** Numbers are handed out without gap or overlap. */
  ghost predicate Consecutive(ended: seq<Outcome>) {
    forall k :: 0 <= k < |ended| ==> ended[k].group.record.first == Operations(ended[..k]) + 1
  }

  ghost predicate LeaderHolds(st: State) {
    st.leader.Some? ==>
      var leader := st.leader.value;
      && st.queue != [] && st.queue[0] == leader.id
      && match leader.phase
         case MakingRoom => true
         case Logging(g) => PrefixGroup(st.queue, g, st.lastSequence) && GroupHolds(g, st.requests)
         case Applying(g) => PrefixGroup(st.queue, g, st.lastSequence) && GroupHolds(g, st.requests)
         case Ending(g, ok, logged, applied, syncFailed) =>
           PrefixGroup(st.queue, g, st.lastSequence)
             && OutcomeHolds(Outcome(g, ok, logged, applied, syncFailed), st.requests)
  }

  ghost predicate PrefixGroup(queue: seq<nat>, g: Group, lastSequence: nat) {
    g.members != [] && g.members <= queue && g.record.first == lastSequence + 1
  }

  ghost predicate ThreadHolds(t: Thread, id: nat, queue: seq<nat>, leader: Option<Leader>) {
    if id in queue then
      if leader.Some? && leader.value.id == id then t == Running
      else
        && t.Waiting? && t.done.None?
        // Awake on purpose exactly when it is to lead
        && (t.signalled <==> leader.None? && id == queue[0])
    else t.Returned? || (t.Waiting? && t.signalled && t.done.Some?)
  }

  ghost predicate ThreadsHold(threads: map<nat, Thread>, queue: seq<nat>, leader: Option<Leader>) {
    forall id :: id in threads ==> ThreadHolds(threads[id], id, queue, leader)
  }

  /** Every member of an ended group has been told how it ended, and has returned that or will. */
  ghost predicate ToldHolds(threads: map<nat, Thread>, ended: seq<Outcome>) {
    forall o, id :: o in ended && id in o.group.members ==> id in threads && Told(threads[id], o.ok)
  }

  predicate Told(t: Thread, ok: bool) {
    t == Returned(ok) || t == Waiting(true, Some(ok))
  }

  ghost predicate LogHolds(st: State) {
    && st.log == LoggedRecords(st.ended) + CurrentlyLogged(st.leader)
    && st.memtable == AppliedRecords(st.ended) + CurrentlyApplied(st.leader)
  }

  function CurrentlyLogged(leader: Option<Leader>): seq<Record> {
    match leader
    case Some(Leader(_, Applying(g))) => [g.record]
    case Some(Leader(_, Ending(g, _, logged, _, _))) => if logged then [g.record] else []
    case _ => []
  }

  function CurrentlyApplied(leader: Option<Leader>): seq<Record> {
    match leader
    case Some(Leader(_, Ending(g, _, _, applied, _))) => Inserted(g.record, applied)
    case _ => []
  }

  /** Between groups the temporary batch is empty. */
  ghost predicate TemporaryHolds(tmpBatch: seq<BatchOp>, leader: Option<Leader>) {
    match leader
    case Some(Leader(_, Logging(g))) => !g.gathered ==> tmpBatch == []
    case Some(Leader(_, Applying(g))) => !g.gathered ==> tmpBatch == []
    case Some(Leader(_, Ending(g, _, _, _, _))) => !g.gathered ==> tmpBatch == []
    case _ => tmpBatch == []
  }

  ghost predicate MayStillLog(leader: Option<Leader>) {
    match leader
    case Some(Leader(_, Logging(_))) => true
    case Some(Leader(_, Applying(_))) => true
    case Some(Leader(_, Ending(_, _, logged, _, _))) => logged
    case _ => false
  }

  /** After a failed sync nothing more is logged. */
  ghost predicate SyncHolds(ended: seq<Outcome>, leader: Option<Leader>, backgroundError: bool) {
    && (forall o :: o in ended && o.syncFailed ==> backgroundError && !MayStillLog(leader))
    && (forall i, j :: 0 <= i < j < |ended| && ended[i].syncFailed ==> !ended[j].logged)
  }

  /** A group that was logged for a leader who asked for it is in the synced part of the log. */
  ghost predicate SyncedHolds(st: State) {
    && st.logStart <= |st.log|
    && (forall k :: 0 <= k < |st.ended| && st.ended[k].logged && !st.ended[k].syncFailed
                    && LeaderSyncs(st.ended[k].group, st.requests) ==>
          |LoggedRecords(st.ended[..k])| in st.synced)
    && match st.leader
       case Some(Leader(_, Applying(g))) =>
         LeaderSyncs(g, st.requests) ==> |LoggedRecords(st.ended)| in st.synced
       case Some(Leader(_, Ending(g, _, logged, _, syncFailed))) =>
         logged && !syncFailed && LeaderSyncs(g, st.requests) ==> |LoggedRecords(st.ended)| in st.synced
       case _ => true
  }

  ghost predicate LeaderSyncs(g: Group, requests: map<nat, Request>) {
    g.members != [] && g.members[0] in requests && requests[g.members[0]].sync
  }

  ghost predicate Inv(st: State) {
    && FirstComeFirstServed(st)
    && LeaderHolds(st)
    && ThreadsHold(st.threads, st.queue, st.leader)
    && ToldHolds(st.threads, st.ended)
    && LogHolds(st)
    && TemporaryHolds(st.tmpBatch, st.leader)
    && (forall o :: o in st.ended ==> OutcomeHolds(o, st.requests))
    && Consecutive(st.ended) && st.lastSequence == Operations(st.ended)
    && SyncHolds(st.ended, st.leader, st.backgroundError)
    && SyncedHolds(st)
  }

  lemma InitInv(st: State)
    requires Init(st)
    ensures Inv(st)
  {
  }

  // ------------------------------------------------------------------ one step at a time

  lemma MoreRequests(requests: map<nat, Request>, ids: seq<nat>, id: nat, request: Request)
    requires (forall x :: x in ids ==> x in requests) && id !in requests
    ensures RequestsOf(requests[id := request], ids) == RequestsOf(requests, ids)
  {
  }

  lemma GroupStays(g: Group, requests: map<nat, Request>, id: nat, request: Request)
    requires id !in requests
    ensures GroupHolds(g, requests) ==> GroupHolds(g, requests[id := request])
  {
    hide RequestsOf, AllOps;
    if GroupHolds(g, requests) {
      MoreRequests(requests, g.members, id, request);
    }
  }

  lemma OutcomeStays(o: Outcome, requests: map<nat, Request>, id: nat, request: Request)
    requires OutcomeHolds(o, requests) && id !in requests
    ensures OutcomeHolds(o, requests[id := request])
  {
    hide GroupHolds;
    GroupStays(o.group, requests, id, request);
  }

  lemma {:induction false} MembersArrived(ended: seq<Outcome>, k: nat)
    requires k < |ended|
    ensures forall id :: id in ended[k].group.members ==> id in Members(ended)
  {
    if k < |ended| - 1 {
      assert ended[..|ended| - 1][k] == ended[k];
      MembersArrived(ended[..|ended| - 1], k);
    }
  }

  lemma ArriveArrivals(st: State, st': State, id: nat, request: Request)
    requires FirstComeFirstServed(st) && Next(st, st', Arrive(id, request))
    ensures FirstComeFirstServed(st') && id !in st.requests && id !in st.queue
  {
    hide Members;
    assert id !in st.arrived;
    assert forall x :: x in st.queue ==> x in st.arrived;
    assert st'.arrived == Members(st.ended) + (st.queue + [id]);
  }

  lemma ArriveInv(st: State, st': State, id: nat, request: Request)
    requires Inv(st) && Next(st, st', Arrive(id, request))
    ensures Inv(st')
  {
    hide GroupHolds, OutcomeHolds, Members, Operations, LoggedRecords, AppliedRecords, IsGroup, AllOps, RequestsOf,
         FirstComeFirstServed, Consecutive;
    ArriveArrivals(st, st', id, request);
    forall o | o in st.ended
      ensures OutcomeHolds(o, st'.requests)
    {
      OutcomeStays(o, st.requests, id, request);
    }
    if st.leader.Some? {
      match st.leader.value.phase
      case Logging(g) => GroupStays(g, st.requests, id, request);
      case Applying(g) => GroupStays(g, st.requests, id, request);
      case Ending(g, ok, logged, applied, syncFailed) => OutcomeStays(Outcome(g, ok, logged, applied, syncFailed),
        st.requests, id, request);
      case _ =>
    }
  }

  lemma SameArrivals(st: State, st': State)
    requires FirstComeFirstServed(st)
    requires st'.arrived == st.arrived && st'.ended == st.ended && st'.queue == st.queue && st'.requests == st.requests
             && st'.threads.Keys == st.threads.Keys
    ensures FirstComeFirstServed(st')
  {
    hide Members, Distinct;
    assert forall id :: id in st.threads <==> id in st.threads.Keys;
  }

  lemma WakeTold(st: State, st': State, id: nat)
    requires FirstComeFirstServed(st) && ThreadsHold(st.threads, st.queue, st.leader) && ToldHolds(st.threads, st.ended)
    requires Next(st, st', Wake(id))
    ensures ToldHolds(st'.threads, st'.ended)
  {
    hide Members;
    assert ThreadHolds(st.threads[id], id, st.queue, st.leader);
    forall x, y | x in st'.ended && y in x.group.members
      ensures y in st'.threads && Told(st'.threads[y], x.ok)
    {
      assert Told(st.threads[y], x.ok);
    }
  }

  /** A waiting thread that finds itself at the head always finds the lead free. */
  lemma WakeInv(st: State, st': State, id: nat)
    requires Inv(st) && Next(st, st', Wake(id))
    ensures Inv(st')
    ensures st.queue != [] && st.queue[0] == id ==> st.leader.None?
  {
    hide GroupHolds, OutcomeHolds, Members, Operations, LoggedRecords, AppliedRecords, IsGroup, AllOps,
         FirstComeFirstServed;
    SameArrivals(st, st');
    assert ThreadHolds(st.threads[id], id, st.queue, st.leader);
    WakeTold(st, st', id);
  }

  lemma LoneGroup(st: State)
    requires Inv(st) && st.leader.Some?
    ensures var g := Alone(st);
            && PrefixGroup(st.queue, g, st.lastSequence)
            && (forall id :: id in g.members ==> id in st.requests)
            && (st.requests[st.leader.value.id].ops.None? ==> GroupHolds(g, st.requests))
  {
    hide Members, Operations, LoggedRecords, AppliedRecords, IsGroup, OutcomeHolds, ThreadsHold;
    var g := Alone(st);
    assert st.queue[0] in st.arrived;
    assert g.members <= st.queue;
    if st.requests[st.leader.value.id].ops.None? {
      var rs := RequestsOf(st.requests, g.members);
      assert rs == [st.requests[st.leader.value.id]] && rs[..0] == [];
      assert AllOps(rs) == [];
    }
  }

  lemma GiveUpInv(st: State, st': State)
    requires Inv(st) && Next(st, st', GiveUp)
    ensures Inv(st')
  {
    hide Members, Operations, LoggedRecords, AppliedRecords, IsGroup, AllOps, FirstComeFirstServed, RequestsOf,
         GroupHolds, ThreadsHold;
    LoneGroup(st);
    SameArrivals(st, st');
    SameThreads(st.threads, st.queue, st.leader, st'.leader);
  }

  lemma SwitchLogInv(st: State, st': State)
    requires Inv(st) && Next(st, st', SwitchLog)
    ensures Inv(st')
  {
    hide Members, Operations, LoggedRecords, AppliedRecords, IsGroup, AllOps, FirstComeFirstServed, RequestsOf,
         GroupHolds, OutcomeHolds, ThreadsHold;
    SameArrivals(st, st');
  }

  lemma ForceInv(st: State, st': State)
    requires Inv(st) && Next(st, st', Force)
    ensures Inv(st')
  {
    hide Members, Operations, LoggedRecords, AppliedRecords, IsGroup, AllOps, FirstComeFirstServed, RequestsOf,
         GroupHolds, ThreadsHold;
    LoneGroup(st);
    SameArrivals(st, st');
    SameThreads(st.threads, st.queue, st.leader, st'.leader);
  }

  lemma SameThreads(threads: map<nat, Thread>, queue: seq<nat>, leader: Option<Leader>, leader': Option<Leader>)
    requires ThreadsHold(threads, queue, leader)
    requires leader.Some? && leader'.Some? && leader.value.id == leader'.value.id
    ensures ThreadsHold(threads, queue, leader')
  {
  }

  lemma ChosenGroup(st: State, n: nat, g: Group)
    requires FirstComeFirstServed(st) && 1 <= n <= |st.queue|
    requires forall id :: id in st.queue ==> id in st.requests
    requires g.members == st.queue[..n] && g.record.first == st.lastSequence + 1
    requires g.record.ops == AllOps(RequestsOf(st.requests, st.queue)[..n])
    requires IsGroup(RequestsOf(st.requests, st.queue), n)
    ensures PrefixGroup(st.queue, g, st.lastSequence) && GroupHolds(g, st.requests)
  {
    var rs := RequestsOf(st.requests, st.queue);
    assert rs[..n] == RequestsOf(st.requests, g.members);
    NobodyOutsyncsTheFirst(rs, n);
    hide AllOps, IsGroup, FirstComeFirstServed;
    forall id | id in g.members && st.requests[id].sync
      ensures st.requests[g.members[0]].sync
    {
      var k :| 0 <= k < n && st.queue[k] == id;
      assert rs[k] == st.requests[id] && rs[0] == st.requests[g.members[0]];
    }
  }

  lemma ChooseInv(st: State, st': State, n: nat)
    requires Inv(st) && Next(st, st', Choose(n))
    ensures Inv(st')
  {
    hide Gathers, Members, Operations, LoggedRecords, AppliedRecords, AllOps, FirstComeFirstServed, RequestsOf,
         GroupHolds, ThreadsHold, OutcomeHolds, PrefixGroup;
    var ops := AllOps(RequestsOf(st.requests, st.queue)[..n]);
    assert st.tmpBatch + ops == ops;
    ChosenGroup(st, n, st'.leader.value.phase.group);
    SameArrivals(st, st');
    SameThreads(st.threads, st.queue, st.leader, st'.leader);
  }

  lemma LogInv(st: State, st': State)
    requires Inv(st) && Next(st, st', Log)
    ensures Inv(st')
  {
    hide Members, Operations, LoggedRecords, AppliedRecords, AllOps, FirstComeFirstServed, RequestsOf, GroupHolds,
         ThreadsHold, OutcomeHolds;
    SameArrivals(st, st');
    SameThreads(st.threads, st.queue, st.leader, st'.leader);
  }

  lemma LogFailsInv(st: State, st': State)
    requires Inv(st) && Next(st, st', LogFails)
    ensures Inv(st')
  {
    hide Members, Operations, LoggedRecords, AppliedRecords, AllOps, FirstComeFirstServed, RequestsOf, ThreadsHold,
         PrefixGroup;
    SameArrivals(st, st');
    SameThreads(st.threads, st.queue, st.leader, st'.leader);
  }

  lemma SyncFailsInv(st: State, st': State)
    requires Inv(st) && Next(st, st', SyncFails)
    ensures Inv(st')
  {
    hide Members, Operations, LoggedRecords, AppliedRecords, AllOps, FirstComeFirstServed, RequestsOf, ThreadsHold,
         PrefixGroup;
    SameArrivals(st, st');
    SameThreads(st.threads, st.queue, st.leader, st'.leader);
  }

  lemma ApplyInv(st: State, st': State)
    requires Inv(st) && Next(st, st', Apply)
    ensures Inv(st')
  {
    hide Members, Operations, LoggedRecords, AppliedRecords, AllOps, FirstComeFirstServed, RequestsOf, ThreadsHold,
         PrefixGroup;
    SameArrivals(st, st');
    SameThreads(st.threads, st.queue, st.leader, st'.leader);
  }

  lemma ApplyFailsInv(st: State, st': State, n: nat)
    requires Inv(st) && Next(st, st', ApplyFails(n))
    ensures Inv(st')
  {
    hide Members, Operations, LoggedRecords, AppliedRecords, AllOps, FirstComeFirstServed, RequestsOf, ThreadsHold,
         PrefixGroup;
    SameArrivals(st, st');
    SameThreads(st.threads, st.queue, st.leader, st'.leader);
  }

  /** The popping loop stops at the group's last member, wherever the queue has grown since. */
  lemma PopsTheGroup(queue: seq<nat>, g: Group, lastSequence: nat)
    requires PrefixGroup(queue, g, lastSequence) && Distinct(queue)
    ensures IndexOf(queue, g.members[|g.members| - 1]) + 1 == |g.members|
    ensures queue[..|g.members|] == g.members
  {
    assert queue[|g.members| - 1] == g.members[|g.members| - 1];
  }

  lemma EndedThreads(threads: map<nat, Thread>, queue: seq<nat>, leader: Option<Leader>, n: nat, ok: bool)
    requires ThreadsHold(threads, queue, leader) && Distinct(queue) && leader.Some?
    requires 0 < n <= |queue| && queue[0] == leader.value.id
    ensures ThreadsHold(AfterEnd(threads, queue, n, leader.value.id, ok), queue[n..], None)
  {
    var after := AfterEnd(threads, queue, n, leader.value.id, ok);
    assert queue == queue[..n] + queue[n..];
    forall id | id in after
      ensures ThreadHolds(after[id], id, queue[n..], None)
    {
      assert ThreadHolds(threads[id], id, queue, leader);
      if id in queue[n..] {
        var k :| 0 <= k < |queue[n..]| && queue[n..][k] == id;
        assert queue[n + k] == id;
        NotEarlier(queue, n, n + k);
        if k > 0 {
          assert queue[n] != queue[n + k];
        }
      }
    }
  }

  lemma NotEarlier(queue: seq<nat>, n: nat, k: nat)
    requires Distinct(queue) && n <= k < |queue|
    ensures queue[k] !in queue[..n]
  {
  }

  lemma DistinctTail(a: seq<nat>, b: seq<nat>)
    requires Distinct(a + b)
    ensures Distinct(b)
  {
    forall i, j | 0 <= i < j < |b|
      ensures b[i] != b[j]
    {
      assert (a + b)[|a| + i] == b[i] && (a + b)[|a| + j] == b[j];
    }
  }

  lemma QueueDistinct(st: State)
    requires FirstComeFirstServed(st)
    ensures Distinct(st.queue)
  {
    hide Members;
    DistinctTail(Members(st.ended), st.queue);
  }

  /** The histories grow by the group that ended. */
  lemma EndedHistories(ended: seq<Outcome>, o: Outcome)
    ensures Members(ended + [o]) == Members(ended) + o.group.members
    ensures Operations(ended + [o]) == Operations(ended) + |o.group.record.ops|
    ensures LoggedRecords(ended + [o]) == LoggedRecords(ended) + if o.logged then [o.group.record] else []
    ensures AppliedRecords(ended + [o]) == AppliedRecords(ended) + Inserted(o.group.record, o.applied)
  {
    assert (ended + [o])[..|ended|] == ended;
  }

  lemma EndedConsecutive(ended: seq<Outcome>, o: Outcome)
    requires Consecutive(ended) && o.group.record.first == Operations(ended) + 1
    ensures Consecutive(ended + [o])
  {
    var all := ended + [o];
    forall k | 0 <= k < |all|
      ensures all[k].group.record.first == Operations(all[..k]) + 1
    {
      assert all[..k] == if k < |ended| then ended[..k] else ended;
    }
  }

  lemma EndedSync(ended: seq<Outcome>, leader: Option<Leader>, backgroundError: bool, o: Outcome)
    requires SyncHolds(ended, leader, backgroundError)
    requires leader.Some? && leader.value.phase == Ending(o.group, o.ok, o.logged, o.applied, o.syncFailed)
    ensures SyncHolds(ended + [o], None, backgroundError || o.syncFailed)
  {
  }

  lemma EndedTold(st: State, o: Outcome)
    requires FirstComeFirstServed(st) && ToldHolds(st.threads, st.ended) && st.leader.Some?
    requires st.queue != [] && st.leader.value.id == st.queue[0]
    requires o.group.members <= st.queue
    ensures ToldHolds(AfterEnd(st.threads, st.queue, |o.group.members|, st.leader.value.id, o.ok), st.ended + [o])
  {
    hide Members, Signal;
    var n := |o.group.members|;
    var after := AfterEnd(st.threads, st.queue, n, st.leader.value.id, o.ok);
    assert st.queue[..n] == o.group.members;
    forall x, id | x in st.ended + [o] && id in x.group.members
      ensures id in after && Told(after[id], x.ok)
    {
      if x in st.ended {
        var k :| 0 <= k < |st.ended| && st.ended[k] == x;
        MembersArrived(st.ended, k);
        Apart(Members(st.ended), st.queue, id);
        assert Told(st.threads[id], x.ok);
      } else {
        assert id in st.arrived;
      }
    }
  }

  lemma Apart(a: seq<nat>, b: seq<nat>, id: nat)
    requires Distinct(a + b) && id in a
    ensures id !in b
  {
    var i :| 0 <= i < |a| && a[i] == id;
    forall j | 0 <= j < |b|
      ensures b[j] != id
    {
      assert (a + b)[i] == id && (a + b)[|a| + j] == b[j];
    }
  }

  lemma EndedSynced(st: State, st': State, o: Outcome)
    requires SyncedHolds(st) && st.leader.Some?
    requires st.leader.value.phase == Ending(o.group, o.ok, o.logged, o.applied, o.syncFailed)
    requires st'.ended == st.ended + [o] && st'.leader.None?
    requires st'.log == st.log && st'.logStart == st.logStart && st'.synced == st.synced && st'.requests == st.requests
    ensures SyncedHolds(st')
  {
    hide LoggedRecords;
    var all := st.ended + [o];
    forall k | 0 <= k < |all| && all[k].logged && !all[k].syncFailed && LeaderSyncs(all[k].group, st.requests)
      ensures |LoggedRecords(all[..k])| in st.synced
    {
      assert all[..k] == st.ended[..k];
      assert st.ended[..|st.ended|] == st.ended;
    }
  }

  lemma EndInv(st: State, st': State)
    requires Inv(st) && Next(st, st', End)
    ensures Inv(st')
  {
    hide Members, Operations, LoggedRecords, AppliedRecords, AllOps, RequestsOf, ThreadsHold, ToldHolds, OutcomeHolds,
         Consecutive, SyncHolds, AfterEnd, Distinct, FirstComeFirstServed, GroupHolds, LogHolds, SyncedHolds, Chosen,
         IsGroup, Inserted;
    var e := st.leader.value.phase;
    var o := Outcome(e.group, e.ok, e.logged, e.applied, e.syncFailed);
    QueueDistinct(st);
    PopsTheGroup(st.queue, e.group, st.lastSequence);
    EndedThreads(st.threads, st.queue, st.leader, |e.group.members|, e.ok);
    EndedHistories(st.ended, o);
    EndedConsecutive(st.ended, o);
    EndedSync(st.ended, st.leader, st.backgroundError, o);
    EndedTold(st, o);
    EndedArrivals(st, o, |e.group.members|);
    assert st'.threads.Keys == st.threads.Keys by {
      EndedKeys(st.threads, st.queue, |e.group.members|, st.leader.value.id, e.ok);
    }
    Regrouped(st, st');
    EndedLog(st, st', o);
    EndedSynced(st, st', o);
  }

  lemma EndedLog(st: State, st': State, o: Outcome)
    requires LogHolds(st) && st'.log == st.log && st'.memtable == st.memtable && st'.ended == st.ended + [o]
             && st'.leader.None?
    requires st.leader.Some? && st.leader.value.phase == Ending(o.group, o.ok, o.logged, o.applied, o.syncFailed)
    ensures LogHolds(st')
  {
    EndedHistories(st.ended, o);
    hide LoggedRecords, AppliedRecords;
  }

  lemma EndedKeys(threads: map<nat, Thread>, queue: seq<nat>, n: nat, leader: nat, ok: bool)
    requires n <= |queue|
    ensures AfterEnd(threads, queue, n, leader, ok).Keys == threads.Keys
  {
  }

  lemma EndedArrivals(st: State, o: Outcome, n: nat)
    requires o.group.members <= st.queue && n == |o.group.members|
    ensures Members(st.ended + [o]) + st.queue[n..] == Members(st.ended) + st.queue
  {
    hide Members;
    EndedHistories(st.ended, o);
    assert st.queue == o.group.members + st.queue[n..];
  }

  lemma Regrouped(st: State, st': State)
    requires FirstComeFirstServed(st)
    requires Members(st'.ended) + st'.queue == Members(st.ended) + st.queue
    requires st'.arrived == st.arrived && st'.requests == st.requests && st'.threads.Keys == st.threads.Keys
    ensures FirstComeFirstServed(st')
  {
    hide Members, Distinct;
    assert forall id :: id in st'.threads <==> id in st'.threads.Keys;
  }

  lemma RecordErrorInv(st: State, st': State)
    requires Inv(st) && Next(st, st', RecordError)
    ensures Inv(st')
  {
    hide Members, Operations, LoggedRecords, AppliedRecords, AllOps, RequestsOf, ThreadsHold, OutcomeHolds, Consecutive,
         GroupHolds;
  }

  lemma NextInv(st: State, st': State, step: Step)
    requires Inv(st) && Next(st, st', step)
    ensures Inv(st')
  {
    hide Inv, Next;
    match step
    case Arrive(id, request) => ArriveInv(st, st', id, request);
    case Wake(id) => WakeInv(st, st', id);
    case RecordError => RecordErrorInv(st, st');
    case GiveUp => GiveUpInv(st, st');
    case SwitchLog => SwitchLogInv(st, st');
    case Force => ForceInv(st, st');
    case Choose(n) => ChooseInv(st, st', n);
    case Log => LogInv(st, st');
    case LogFails => LogFailsInv(st, st');
    case SyncFails => SyncFailsInv(st, st');
    case Apply => ApplyInv(st, st');
    case ApplyFails(n) => ApplyFailsInv(st, st', n);
    case End => EndInv(st, st');
  }

  // ------------------------------------------------------------------ over whole runs

  ghost predicate IsRun(states: seq<State>, steps: seq<Step>) {
    && |states| == |steps| + 1
    && Init(states[0])
    && forall i: nat, next: nat :: i < |steps| && next == i + 1 ==> Next(states[i], states[next], steps[i])
  }

  lemma {:induction false} RunInv(states: seq<State>, steps: seq<Step>, i: nat)
    requires IsRun(states, steps) && i < |states|
    ensures Inv(states[i])
  {
    hide Inv, Next;
    if i == 0 {
      InitInv(states[0]);
    } else {
      RunInv(states, steps, i - 1);
      NextInv(states[i - 1], states[i], steps[i - 1]);
    }
  }

  /** Groups are taken from the queue in order of arrival, each writer in one group only, and what
      is still queued is exactly who has arrived and not been served. */
  lemma ServedInOrder(states: seq<State>, steps: seq<Step>, i: nat)
    requires IsRun(states, steps) && i < |states|
    ensures var st := states[i]; st.arrived == Members(st.ended) + st.queue && Distinct(Members(st.ended) + st.queue)
  {
    RunInv(states, steps, i);
  }

  lemma {:induction false} OperationsBefore(ended: seq<Outcome>, j: nat, k: nat)
    requires j < k <= |ended|
    ensures Operations(ended[..j]) + |ended[j].group.record.ops| <= Operations(ended[..k])
  {
    assert ended[..k][..k - 1] == ended[..k - 1];
    if j < k - 1 {
      OperationsBefore(ended, j, k - 1);
    }
  }

  /** Groups get consecutive, disjoint ranges of sequence numbers, in the order they were served. */
  lemma RangesFollow(states: seq<State>, steps: seq<Step>, i: nat, j: nat, k: nat)
    requires IsRun(states, steps) && i < |states|
    requires j < k < |states[i].ended|
    ensures var r, r' := states[i].ended[j].group.record, states[i].ended[k].group.record;
            r.first + |r.ops| <= r'.first && (k == j + 1 ==> r.first + |r.ops| == r'.first)
  {
    hide Members, LoggedRecords, AppliedRecords, ThreadsHold, OutcomeHolds;
    RunInv(states, steps, i);
    var ended := states[i].ended;
    OperationsBefore(ended, j, k);
    assert ended[..j + 1][..j] == ended[..j];
  }

  /** A writer is told of success only when its whole group is in the log and in the memtable, with
      the operations of all its members side by side, or when it asked for none at all; if it asked
      for a sync, the group is in the part of the log that has been synced. */
  lemma ToldMeansDone(states: seq<State>, steps: seq<Step>, i: nat, id: nat) returns (k: nat, p: nat)
    requires IsRun(states, steps) && i < |states|
    requires id in states[i].threads && id !in states[i].queue && Told(states[i].threads[id], true)
    ensures k < |states[i].ended|
    ensures var st := states[i]; var g := st.ended[k].group;
            && id in g.members && GroupHolds(g, st.requests)
            && (st.requests[id].ops.Some? ==>
                  && p < |st.log| && st.log[p] == g.record && g.record in st.memtable
                  && (st.requests[id].sync ==> p in st.synced))
  {
    hide Inv, IsRun;
    RunInv(states, steps, i);
    k := ToldGroup(states[i], id);
    p := SuccessfulGroup(states[i], id, k);
  }

  /** Whoever asks for the disk to be synced is in a group whose leader asked for it too: the leader's
      options are the ones the log is written with. */
  lemma SyncNeedsSyncLeader(states: seq<State>, steps: seq<Step>, i: nat, o: Outcome, id: nat)
    requires IsRun(states, steps) && i < |states|
    requires o in states[i].ended && (o.ok || o.logged) && id in o.group.members
    ensures id in states[i].requests && o.group.members[0] in states[i].requests
    ensures states[i].requests[id].sync ==> states[i].requests[o.group.members[0]].sync
  {
    hide LogHolds, LeaderHolds, SyncHolds, Consecutive, ThreadsHold, Distinct, Members, FirstComeFirstServed, IsRun;
    RunInv(states, steps, i);
    assert OutcomeHolds(o, states[i].requests);
  }

  lemma ToldGroup(st: State, id: nat) returns (k: nat)
    requires Inv(st) && id in st.threads && id !in st.queue && Told(st.threads[id], true)
    ensures k < |st.ended| && id in st.ended[k].group.members && st.ended[k].ok
  {
    hide LogHolds, OutcomeHolds, LeaderHolds, SyncHolds, Consecutive, ThreadsHold, Distinct, Members;
    assert id in st.arrived;
    assert id in Members(st.ended);
    k := GroupOf(st.ended, id);
    assert Told(st.threads[id], st.ended[k].ok);
  }

  lemma SuccessfulGroup(st: State, id: nat, k: nat) returns (p: nat)
    requires Inv(st) && k < |st.ended| && id in st.ended[k].group.members && st.ended[k].ok
    ensures var g := st.ended[k].group;
            && GroupHolds(g, st.requests)
            && (st.requests[id].ops.Some? ==>
                  && p < |st.log| && st.log[p] == g.record && g.record in st.memtable
                  && (st.requests[id].sync ==> p in st.synced))
  {
    hide LeaderHolds, SyncHolds, Consecutive, ThreadsHold, ToldHolds, FirstComeFirstServed, LoggedRecords,
         AppliedRecords, RequestsOf, AllOps;
    RecordsKept(st.ended, k);
    assert OutcomeHolds(st.ended[k], st.requests);
    p := |LoggedRecords(st.ended[..k])|;
  }

  lemma {:induction false} GroupOf(ended: seq<Outcome>, id: nat) returns (k: nat)
    requires id in Members(ended)
    ensures k < |ended| && id in ended[k].group.members
  {
    if id in ended[|ended| - 1].group.members {
      k := |ended| - 1;
    } else {
      k := GroupOf(ended[..|ended| - 1], id);
    }
  }

  /** A logged group's record stands behind those of the groups before it. */
  lemma {:induction false} RecordsKept(ended: seq<Outcome>, k: nat)
    requires k < |ended|
    ensures var p := |LoggedRecords(ended[..k])|;
            ended[k].logged ==> p < |LoggedRecords(ended)| && LoggedRecords(ended)[p] == ended[k].group.record
    ensures ended[k].applied == Some(|ended[k].group.record.ops|) ==> ended[k].group.record in AppliedRecords(ended)
  {
    if k < |ended| - 1 {
      RecordsKept(ended[..|ended| - 1], k);
      assert ended[..|ended| - 1][..k] == ended[..k];
    }
  }

  /** Only the leader's own steps touch the log or the memtable, and the leader is the head of the
      queue until its group has ended. */
  lemma OnlyHeadWrites(states: seq<State>, steps: seq<Step>, i: nat)
    requires IsRun(states, steps) && i < |steps|
    requires var st, st' := states[i], states[i + 1]; st'.log != st.log || st'.memtable != st.memtable
    ensures var st, st' := states[i], states[i + 1];
            && st.leader.Some? && st'.leader.Some? && st.leader.value.id == st'.leader.value.id
            && st.queue != [] && st.queue[0] == st.leader.value.id && st'.queue == st.queue
  {
    hide Inv, Next;
    RunInv(states, steps, i);
    WriterIsHead(states[i], states[i + 1], steps[i]);
  }

  lemma WriterIsHead(st: State, st': State, step: Step)
    requires Inv(st) && Next(st, st', step) && (st'.log != st.log || st'.memtable != st.memtable)
    ensures st.leader.Some? && st'.leader.Some? && st.leader.value.id == st'.leader.value.id
    ensures st.queue != [] && st.queue[0] == st.leader.value.id && st'.queue == st.queue
  {
    hide Members, LoggedRecords, AppliedRecords, ThreadsHold, OutcomeHolds, GroupHolds, PrefixGroup,
         FirstComeFirstServed, ToldHolds, LogHolds, SyncHolds, Consecutive, TemporaryHolds;
  }

  /** What a leader writes is its group's batches, never leftovers of an earlier group. */
  lemma GroupsStartEmpty(states: seq<State>, steps: seq<Step>, i: nat)
    requires IsRun(states, steps) && i < |states|
    requires states[i].leader.None? || states[i].leader.value.phase.MakingRoom?
    ensures states[i].tmpBatch == []
  {
    hide Members, LoggedRecords, AppliedRecords, ThreadsHold, OutcomeHolds, GroupHolds, PrefixGroup;
    RunInv(states, steps, i);
  }

  /** Once a sync has failed, nothing more is logged. */
  lemma NothingLoggedAfterFailedSync(states: seq<State>, steps: seq<Step>, i: nat, o: Outcome)
    requires IsRun(states, steps) && i < |steps|
    requires o in states[i].ended && o.syncFailed
    ensures states[i + 1].log == states[i].log
  {
    hide Members, LoggedRecords, AppliedRecords, ThreadsHold, OutcomeHolds, GroupHolds, PrefixGroup,
         FirstComeFirstServed, LeaderHolds, LogHolds, ToldHolds, TemporaryHolds, Consecutive, Operations, AfterEnd,
         Chosen, IsGroup, RequestsOf, Inserted, Distinct, Init;
    RunInv(states, steps, i);
    assert Next(states[i], states[i + 1], steps[i]);
  }

  // ------------------------------------------------------------------ nobody is left asleep

  /** How many steps the threads can still take: per queued writer, per stage of the leader, and one
      for each writer that has been told but has not yet returned. */
  function Remaining(st: State): nat {
    6 * |st.queue| + StagesLeft(st.leader) + |ToldWaiting(st.threads)|
  }

  function StagesLeft(leader: Option<Leader>): nat {
    match leader
    case None => 5
    case Some(l) =>
      match l.phase
      case MakingRoom => 4
      case Logging(_) => 3
      case Applying(_) => 2
      case Ending(_, _, _, _, _) => 1
  }

  function ToldWaiting(threads: map<nat, Thread>): set<nat> {
    set id | id in threads && threads[id].Waiting? && threads[id].done.Some?
  }

  /** A step some thread takes because it was signalled or leads, as opposed to a new arrival, a
      wakeup for no reason, an error elsewhere, or a new log file while room is made. */
  ghost predicate Productive(st: State, step: Step) {
    match step
    case Arrive(_, _) => false
    case RecordError => false
    case SwitchLog => false
    case Wake(id) => id in st.threads && st.threads[id].Waiting? && st.threads[id].signalled
    case _ => true
  }

  /** While any writer has not returned, some thread can take a productive step: the head of the
      queue is never asleep with nobody leading, nor is anyone who has been told. */
  lemma SomeoneCanMove(states: seq<State>, steps: seq<Step>, i: nat, id: nat) returns (step: Step, st': State)
    requires IsRun(states, steps) && i < |states|
    requires id in states[i].threads && !states[i].threads[id].Returned?
    ensures Productive(states[i], step) && Next(states[i], st', step)
  {
    hide LoggedRecords, AppliedRecords, OutcomeHolds, GroupHolds, AllOps, Consecutive, Members;
    RunInv(states, steps, i);
    var st := states[i];
    assert ThreadHolds(st.threads[id], id, st.queue, st.leader);
    if st.leader.Some? {
      step, st' := LeaderCanMove(st);
    } else {
      var awake := if id in st.queue then st.queue[0] else id;
      assert awake in st.arrived;
      assert ThreadHolds(st.threads[awake], awake, st.queue, st.leader);
      step := Wake(awake);
      st' := if st.threads[awake].done.Some?
        then st.(threads := st.threads[awake := Returned(st.threads[awake].done.value)])
             else st.(threads := st.threads[awake := Running], leader := Some(Leader(awake, MakingRoom)));
    }
  }

  lemma LeaderCanMove(st: State) returns (step: Step, st': State)
    requires Inv(st) && st.leader.Some?
    ensures Productive(st, step) && Next(st, st', step)
  {
    hide LogHolds, OutcomeHolds, GroupHolds, Consecutive, SyncHolds, ThreadsHold, ToldHolds, FirstComeFirstServed,
         IsGroup, AllOps, RequestsOf, IndexOf, AfterEnd;
    var l := st.leader.value;
    match l.phase
    case MakingRoom =>
      step, st' := RoomIsMade(st);
    case Logging(g) =>
      step := Log;
      QueuedRequests(st);
      st' := st.(leader := Some(l.(phase := Applying(g))), log := st.log + [g.record],
                 synced := if st.requests[l.id].sync then st.synced + FileRecords(st.logStart, |st.log| + 1)
                   else st.synced);
    case Applying(g) =>
      step := Apply;
      st' := st.(leader := Some(l.(phase := Ending(g, true, true, Some(|g.record.ops|), false))),
        memtable := st.memtable + [g.record]);
    case Ending(g, ok, logged, applied, syncFailed) =>
      step, st' := End, Ended(st);
      EndEnabled(st);
  }

  function Ended(st: State): State
    requires st.leader.Some? && st.leader.value.phase.Ending? && |st.leader.value.phase.group.members| <= |st.queue|
  {
    var e := st.leader.value.phase;
    var n := |e.group.members|;
    st.(queue := st.queue[n..], threads := AfterEnd(st.threads, st.queue, n, st.leader.value.id, e.ok),
        leader := None, tmpBatch := if e.group.gathered then [] else st.tmpBatch,
        lastSequence := st.lastSequence + |e.group.record.ops|,
        backgroundError := st.backgroundError || e.syncFailed,
        ended := st.ended + [Outcome(e.group, e.ok, e.logged, e.applied, e.syncFailed)])
  }

  lemma EndEnabled(st: State)
    requires Inv(st) && st.leader.Some? && st.leader.value.phase.Ending?
    ensures |st.leader.value.phase.group.members| <= |st.queue| && Next(st, Ended(st), End)
  {
    hide LogHolds, OutcomeHolds, Consecutive, SyncHolds, ThreadsHold, ToldHolds, FirstComeFirstServed, AfterEnd,
         Distinct;
    QueueDistinct(st);
    PopsTheGroup(st.queue, st.leader.value.phase.group, st.lastSequence);
  }

  /** With room, or an error that stops the write, the leader goes on. */
  lemma RoomIsMade(st: State) returns (step: Step, st': State)
    requires Inv(st) && st.leader.Some? && st.leader.value.phase.MakingRoom?
    ensures Productive(st, step) && Next(st, st', step)
    ensures step.GiveUp? ==> st.backgroundError
  {
    hide Inv, Next, Chosen, AllOps, IsGroup;
    var l := st.leader.value;
    QueuedRequests(st);
    if st.backgroundError {
      step := GiveUp;
      st' := st.(leader := Some(l.(phase := Ending(Alone(st), false, false, None, false))));
      GiveUpEnabled(st, st');
    } else if st.requests[l.id].ops.None? {
      step := Force;
      st' := st.(leader := Some(l.(phase := Ending(Alone(st), true, false, None, false))));
      ForceEnabled(st, st');
    } else {
      var n := GroupExists(RequestsOf(st.requests, st.queue), 1);
      step, st' := Choose(n), Chosen(st, n);
      ChooseEnabled(st, n);
    }
  }

  lemma GiveUpEnabled(st: State, st': State)
    requires st.leader.Some? && st.leader.value.phase.MakingRoom?
    requires st' == st.(leader := Some(st.leader.value.(phase := Ending(Alone(st), false, false, None, false))))
    ensures Next(st, st', GiveUp)
  {
  }

  lemma ForceEnabled(st: State, st': State)
    requires st.leader.Some? && st.leader.value.phase.MakingRoom? && !st.backgroundError
    requires st.leader.value.id in st.requests && st.requests[st.leader.value.id].ops.None?
    requires st' == st.(leader := Some(st.leader.value.(phase := Ending(Alone(st), true, false, None, false))))
    ensures Next(st, st', Force)
  {
  }

  lemma ChooseEnabled(st: State, n: nat)
    requires st.leader.Some? && st.leader.value.phase.MakingRoom? && !st.backgroundError
    requires st.queue != [] && (forall id :: id in st.queue ==> id in st.requests)
    requires st.leader.value.id in st.requests && st.requests[st.leader.value.id].ops.Some?
    requires IsGroup(RequestsOf(st.requests, st.queue), n)
    ensures Next(st, Chosen(st, n), Choose(n))
  {
    hide Chosen, IsGroup;
  }

  lemma QueuedRequests(st: State)
    requires Inv(st) && st.leader.Some?
    ensures st.queue != [] && st.queue[0] == st.leader.value.id && forall id :: id in st.queue ==> id in st.requests
  {
    hide LogHolds, OutcomeHolds, GroupHolds, Consecutive, SyncHolds, ThreadsHold, ToldHolds, Members;
    assert forall id :: id in st.queue ==> id in st.arrived;
    assert forall id :: id in st.requests.Keys <==> id in st.threads.Keys;
  }

  lemma GroupExists(rs: seq<Request>, from: nat) returns (n: nat)
    requires 1 <= from <= |rs| && forall k: nat :: 1 <= k < from ==> MayJoin(rs, k)
    ensures IsGroup(rs, n)
    decreases |rs| - from
  {
    if from == |rs| || !MayJoin(rs, from) {
      n := from;
    } else {
      n := GroupExists(rs, from + 1);
    }
  }

  /** Every productive step uses up at least one of those left. */
  lemma StepsRunOut(st: State, st': State, step: Step)
    requires Inv(st) && Next(st, st', step) && Productive(st, step)
    ensures Remaining(st') < Remaining(st)
  {
    hide OutcomeHolds, LogHolds, Consecutive, FirstComeFirstServed, RequestsOf, ToldHolds, ThreadsHold, LeaderHolds,
         SyncHolds, IsGroup, AfterEnd;
    match step
    case Wake(id) =>
      WakeRunsOut(st, st', id);
    case End =>
      EndRunsOut(st, st');
    case _ =>
  }

  lemma WakeRunsOut(st: State, st': State, id: nat)
    requires Inv(st) && Next(st, st', Wake(id)) && st.threads[id].signalled
    ensures Remaining(st') < Remaining(st)
  {
    hide OutcomeHolds, LogHolds, ToldHolds, SyncHolds, FirstComeFirstServed, Distinct, Consecutive, LeaderHolds,
         TemporaryHolds, Members, Operations, Told;
    assert ThreadHolds(st.threads[id], id, st.queue, st.leader);
    if st.threads[id].done.Some? {
      assert ToldWaiting(st'.threads) == ToldWaiting(st.threads) - {id};
    } else {
      assert ToldWaiting(st'.threads) == ToldWaiting(st.threads);
    }
  }

  lemma EndRunsOut(st: State, st': State)
    requires Inv(st) && Next(st, st', End)
    ensures Remaining(st') < Remaining(st)
  {
    hide OutcomeHolds, LogHolds, ToldHolds, ThreadsHold, SyncHolds, FirstComeFirstServed, Distinct, ToldWaiting,
         AfterEnd, Consecutive;
    var e := st.leader.value.phase;
    QueueDistinct(st);
    PopsTheGroup(st.queue, e.group, st.lastSequence);
    NewlyTold(st.threads, st.queue, st.leader.value.id, |e.group.members|, e.ok);
  }

  lemma NewlyTold(threads: map<nat, Thread>, queue: seq<nat>, leader: nat, n: nat, ok: bool)
    requires 0 < n <= |queue| && queue[0] == leader
    ensures |ToldWaiting(AfterEnd(threads, queue, n, leader, ok))| <= |ToldWaiting(threads)| + n - 1
  {
    var popped := Among(queue[1..n]);
    AmongAtMost(queue[1..n]);
    assert queue[..n] == [leader] + queue[1..n];
    var after := ToldWaiting(AfterEnd(threads, queue, n, leader, ok));
    assert after <= ToldWaiting(threads) + popped;
    Within(after, ToldWaiting(threads) + popped);
  }

  lemma Within(a: set<nat>, b: set<nat>)
    requires a <= b
    ensures |a| <= |b|
  {
    assert b == a + (b - a);
  }

  function Among(ids: seq<nat>): set<nat> {
    set id | id in ids
  }

  lemma {:induction false} AmongAtMost(ids: seq<nat>)
    ensures |Among(ids)| <= |ids|
  {
    if ids != [] {
      var last := |ids| - 1;
      AmongAtMost(ids[..last]);
      assert Among(ids) == Among(ids[..last]) + {ids[last]};
    }
  }

  /** The other steps use up nothing: an arrival adds at most six, and a wakeup for no reason or an
      error elsewhere adds none. */
  lemma OtherStepsAdd(st: State, st': State, step: Step)
    requires Inv(st) && Next(st, st', step) && !Productive(st, step)
    ensures Remaining(st') <= Remaining(st) + if step.Arrive? then 6 else 0
  {
    hide OutcomeHolds, LogHolds, ToldHolds, SyncHolds, Distinct, Consecutive, TemporaryHolds, Members, Operations,
         Chosen, AfterEnd, IsGroup, RequestsOf, Inserted;
    match step
    case Arrive(id, _) =>
      assert ToldWaiting(st'.threads) == ToldWaiting(st.threads);
    case Wake(id) =>
      assert ThreadHolds(st.threads[id], id, st.queue, st.leader);
      assert st'.threads == st.threads;
    case _ =>
  }

  ghost function ProductiveSteps(states: seq<State>, steps: seq<Step>, i: nat, j: nat): nat
    requires i <= j <= |steps| < |states|
  {
    if i == j then 0
    else ProductiveSteps(states, steps, i, j - 1) + if Productive(states[j - 1], steps[j - 1]) then 1 else 0
  }

  function Arrivals(steps: seq<Step>, i: nat, j: nat): nat
    requires i <= j <= |steps|
  {
    if i == j then 0 else Arrivals(steps, i, j - 1) + if steps[j - 1].Arrive? then 1 else 0
  }

  /** Over any stretch of any run, what is done is paid for by what was left and what arrived. */
  lemma {:induction false} WorkIsBounded(states: seq<State>, steps: seq<Step>, i: nat, j: nat)
    requires IsRun(states, steps) && i <= j <= |steps|
    ensures ProductiveSteps(states, steps, i, j) + Remaining(states[j]) <= Remaining(states[i])
            + 6 * Arrivals(steps, i, j)
    decreases j
  {
    hide Inv, Next, Remaining, Productive;
    if i < j {
      WorkIsBounded(states, steps, i, j - 1);
      RunInv(states, steps, j - 1);
      assert Next(states[j - 1], states[j], steps[j - 1]);
      if Productive(states[j - 1], steps[j - 1]) {
        assert !steps[j - 1].Arrive? by { ArrivingIsNoProgress(states[j - 1], steps[j - 1]); }
        StepsRunOut(states[j - 1], states[j], steps[j - 1]);
      } else {
        OtherStepsAdd(states[j - 1], states[j], steps[j - 1]);
      }
    }
  }

  lemma ArrivingIsNoProgress(st: State, step: Step)
    ensures step.Arrive? ==> !Productive(st, step)
  {
  }

  /** At rest five are left; more are left as long as some writer has not returned. */
  lemma RestMeansReturned(st: State)
    requires Inv(st)
    ensures Remaining(st) >= 5
    ensures Remaining(st) == 5 ==> forall id :: id in st.threads ==> st.threads[id].Returned?
  {
    hide OutcomeHolds, LogHolds, ToldHolds, SyncHolds, Distinct, Consecutive, FirstComeFirstServed;
    if st.queue == [] {
      assert st.leader.None?;
      forall id | id in st.threads && !st.threads[id].Returned?
        ensures Remaining(st) > 5
      {
        assert ThreadHolds(st.threads[id], id, st.queue, st.leader);
        assert id in ToldWaiting(st.threads);
      }
    }
  }

  /** When nobody arrives any more, every writer has returned as soon as the threads have taken the
      steps they had left, whatever else happens in between. */
  lemma EveryWriterReturns(states: seq<State>, steps: seq<Step>, i: nat, j: nat, id: nat)
    requires IsRun(states, steps) && i <= j <= |steps| && Arrivals(steps, i, j) == 0
    requires ProductiveSteps(states, steps, i, j) + 5 >= Remaining(states[i])
    requires id in states[j].threads
    ensures states[j].threads[id].Returned?
  {
    hide Inv, Next, Remaining, Productive;
    WorkIsBounded(states, steps, i, j);
    RunInv(states, steps, j);
    RestMeansReturned(states[j]);
  }

  /** And they can always take them: from every reachable state some schedule lets every writer
      return. */
  lemma {:induction false} EveryWriterCanReturn(states: seq<State>, steps: seq<Step>)
      returns (more: seq<State>, moreSteps: seq<Step>)
    requires IsRun(states, steps)
    ensures IsRun(states + more, steps + moreSteps)
    ensures forall id :: id in (states + more)[|steps + moreSteps|].threads ==>
              (states + more)[|steps + moreSteps|].threads[id].Returned?
    decreases Remaining(states[|steps|])
  {
    hide Inv, Next, Remaining, Productive;
    var last := states[|steps|];
    if id :| id in last.threads && !last.threads[id].Returned? {
      var step, st' := SomeoneCanMove(states, steps, |steps|, id);
      RunInv(states, steps, |steps|);
      StepsRunOut(last, st', step);
      var longer, longerSteps := states + [st'], steps + [step];
      assert IsRun(longer, longerSteps);
      var rest, restSteps := EveryWriterCanReturn(longer, longerSteps);
      more, moreSteps := [st'] + rest, [step] + restSteps;
      assert longer + rest == states + more && longerSteps + restSteps == steps + moreSteps;
    } else {
      more, moreSteps := [], [];
      assert states + more == states && steps + moreSteps == steps;
    }
  }
}
