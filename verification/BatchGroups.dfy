/** Which waiting writers a commit group takes in, and how the group is built and finished. */
module BatchGroups {
  import opened Options
  import opened WriteBatches

  /** What one writer asks for; no operations means a request to switch memtables. */
  datatype Request = Request(ops: Option<seq<BatchOp>>, size: nat, sync: bool)

  const MAX_GROUP: nat := 0x10_0000
  const SMALL_WRITE: nat := 0x2_0000

  /** A small first write limits the group's growth. */
  function Limit(first: Request): nat {
    if first.size <= SMALL_WRITE then first.size + SMALL_WRITE else MAX_GROUP
  }

  function TotalBytes(rs: seq<Request>): nat {
    if rs == [] then 0
    else TotalBytes(rs[..|rs| - 1]) + if rs[|rs| - 1].ops.Some? then rs[|rs| - 1].size else 0
  }

  function AllOps(rs: seq<Request>): seq<BatchOp> {
    if rs == [] then []
    else AllOps(rs[..|rs| - 1]) + if rs[|rs| - 1].ops.Some? then rs[|rs| - 1].ops.value else []
  }

  /** A synchronous write never joins a group led by an asynchronous one, and a batch that would
      make the group too big does not join; a request without operations always may. */
  predicate MayJoin(rs: seq<Request>, k: nat)
    requires 0 < k < |rs|
  {
    && !(rs[k].sync && !rs[0].sync)
    && (rs[k].ops.Some? ==> TotalBytes(rs[..k + 1]) <= Limit(rs[0]))
  }

  /** The group is the first n waiting writers: all that may join, up to the first that may not. */
  predicate IsGroup(rs: seq<Request>, n: nat) {
    && 1 <= n <= |rs|
    && (forall k: nat :: 1 <= k < n ==> MayJoin(rs, k))
    && (n < |rs| ==> !MayJoin(rs, n))
  }

  /** Writers still arriving behind a group do not change how it was chosen, unless it took all. */
  lemma GroupOfMore(rs: seq<Request>, more: seq<Request>, n: nat)
    requires IsGroup(rs, n) && n < |rs|
    ensures IsGroup(rs + more, n)
  {
    forall k: nat | 1 <= k <= n
      ensures MayJoin(rs + more, k) <==> MayJoin(rs, k)
    {
      assert (rs + more)[..k + 1] == rs[..k + 1];
    }
  }

  /** A member that asks for its write to be synced has a leader that syncs. */
  lemma NobodyOutsyncsTheFirst(rs: seq<Request>, n: nat)
    requires IsGroup(rs, n)
    ensures forall k :: 0 <= k < n && rs[k].sync ==> rs[0].sync
  {
    forall k | 0 <= k < n && rs[k].sync
      ensures rs[0].sync
    {
      assert k > 0 ==> MayJoin(rs, k);
    }
  }

  /** A group of n is right exactly when nobody in it asks for a sync the first does not ask for, all it
      brings together is at most 1 MiB, or 128 KiB more than a small first write, and the next
      writer would break one of these rules. */
  lemma GroupIsExactly(rs: seq<Request>, n: nat)
    requires 1 <= n <= |rs|
    ensures var most := if rs[0].size <= 131072 then rs[0].size + 131072 else 1048576;
            IsGroup(rs, n) <==>
              && (forall k :: 0 <= k < n && rs[k].sync ==> rs[0].sync)
              && ((forall k :: 1 <= k < n ==> rs[k].ops.None?) || TotalBytes(rs[..n]) <= most)
              && (n < |rs| ==> (rs[n].sync && !rs[0].sync)
                               || (rs[n].ops.Some? && TotalBytes(rs[..n]) + rs[n].size > most))
  {
    if n < |rs| {
      NextRequest(rs, n);
    }
    if IsGroup(rs, n) {
      NobodyOutsyncsTheFirst(rs, n);
      LastBatchFits(rs, n);
    } else if (forall k :: 1 <= k < n ==> rs[k].ops.None?) || TotalBytes(rs[..n]) <= Limit(rs[0]) {
      forall k | 1 <= k < n && rs[k].ops.Some?
        ensures TotalBytes(rs[..k + 1]) <= Limit(rs[0])
      {
        BytesGrow(rs, k + 1, n);
      }
      hide TotalBytes, Limit;
      assert n == |rs| || MayJoin(rs, n) || exists k: nat :: 1 <= k < n && !MayJoin(rs, k);
    }
  }

  lemma {:induction false} BytesGrow(rs: seq<Request>, k: nat, n: nat)
    requires k <= n <= |rs|
    ensures TotalBytes(rs[..k]) <= TotalBytes(rs[..n])
    decreases n
  {
    if k < n {
      BytesGrow(rs, k, n - 1);
      NextRequest(rs, n - 1);
    }
  }

  lemma {:induction false} LastBatchFits(rs: seq<Request>, n: nat)
    requires 1 <= n <= |rs| && forall k: nat :: 1 <= k < n ==> MayJoin(rs, k)
    ensures (forall k :: 1 <= k < n ==> rs[k].ops.None?) || TotalBytes(rs[..n]) <= Limit(rs[0])
    decreases n
  {
    if n > 1 {
      assert MayJoin(rs, n - 1);
      NextRequest(rs, n - 1);
      LastBatchFits(rs, n - 1);
    }
  }

  class Writer {
    const batch: WriteBatch?
    const sync: bool
    var done: bool
    var status: bool

    constructor (batch: WriteBatch?, sync: bool)
      ensures this.batch == batch && this.sync == sync && !done
    {
      this.batch, this.sync, done, status := batch, sync, false, true;
    }
  }

  ghost predicate Describes(w: Writer, r: Request)
    reads w.batch
  {
    && w.sync == r.sync && (r.ops.Some? <==> w.batch != null)
    && (w.batch != null ==> w.batch.Holds(r.ops.value) && r.size == |w.batch.rep|)
  }

  lemma NextRequest(rs: seq<Request>, k: nat)
    requires k < |rs|
    ensures TotalBytes(rs[..k + 1]) == TotalBytes(rs[..k]) + if rs[k].ops.Some? then rs[k].size else 0
    ensures AllOps(rs[..k + 1]) == AllOps(rs[..k]) + if rs[k].ops.Some? then rs[k].ops.value else []
  {
    assert rs[..k + 1][..k] == rs[..k];
  }

  /** Builds the batch for the writers at the head of the queue.  The callers' own batches are
      left as they are: several batches are gathered in the temporary one. */
  method BuildBatchGroup(writers: seq<Writer>, tmpBatch: WriteBatch, ghost rs: seq<Request>)
      returns (result: WriteBatch, last: nat)
    requires writers != [] && |rs| == |writers| && writers[0].batch != null
    requires forall k :: 0 <= k < |writers| ==> writers[k].batch != tmpBatch && Describes(writers[k], rs[k])
    requires tmpBatch.Holds([])
    modifies tmpBatch
    ensures last < |writers| && IsGroup(rs, last + 1)
    ensures forall k :: 0 <= k <= last && writers[k].sync ==> writers[0].sync
    ensures result.Holds(AllOps(rs[..last + 1]))
    ensures result == writers[0].batch || result == tmpBatch
    ensures result != tmpBatch ==> tmpBatch.Holds([])
  {
    hide HoldsIn;
    var first := writers[0];
    result := first.batch;
    var size := |first.batch.rep|;
    var maxSize := 0x10_0000;
    if size <= 0x2_0000 {
      maxSize := size + 0x2_0000;
    }
    last := 0;
    NextRequest(rs, 0);
    assert Describes(first, rs[0]);
    assert AllOps(rs[..1]) == rs[0].ops.value;
    var iter := 1;
    while iter < |writers|
      invariant 1 <= iter <= |writers| && last == iter - 1
      invariant maxSize == Limit(rs[0]) && size == TotalBytes(rs[..iter])
      invariant forall k: nat :: 1 <= k < iter ==> MayJoin(rs, k)
      invariant forall k :: 0 <= k < iter && writers[k].sync ==> first.sync
      invariant result == first.batch || result == tmpBatch
      invariant result.Holds(AllOps(rs[..iter]))
      invariant result != tmpBatch ==> tmpBatch.Holds([]) && AllOps(rs[..iter]) == rs[0].ops.value
    {
      var w := writers[iter];
      assert Describes(w, rs[iter]);
      NextRequest(rs, iter);
      if w.sync && !first.sync {
        break;
      }
      if w.batch != null {
        size := size + |w.batch.rep|;
        if size > maxSize {
          break;
        }
        result := Gather(result, w.batch, first.batch, tmpBatch, AllOps(rs[..iter]), rs[iter].ops.value);
      }
      assert rs[iter].ops.None? ==> AllOps(rs[..iter + 1]) == AllOps(rs[..iter]);
      last := iter;
      iter := iter + 1;
    }
  }

  /** Adds one batch to the group, in the temporary batch from the second one on. */
  method Gather(result: WriteBatch, batch: WriteBatch, first: WriteBatch, tmpBatch: WriteBatch, ghost ops: seq<BatchOp>,
      ghost more: seq<BatchOp>)
    returns (gathered: WriteBatch)
    requires result == first || result == tmpBatch
    requires first != tmpBatch && batch != tmpBatch
    requires result.Holds(ops) && batch.Holds(more)
    requires result != tmpBatch ==> tmpBatch.Holds([])
    modifies tmpBatch
    ensures gathered == tmpBatch && tmpBatch.Holds(ops + more)
  {
    hide HoldsIn;
    gathered := result;
    if gathered == first {
      // The first caller's own batch must stay as it is
      gathered := tmpBatch;
      gathered.Append(first, [], ops);
      assert [] + ops == ops;
    }
    gathered.Append(batch, ops, more);
  }

  /** Takes the group off the queue: every member but the leader is told the outcome and woken, and
      so is the writer then at the head. */
  method FinishGroup(queue: seq<Writer>, leader: Writer, last: nat, status: bool)
      returns (rest: seq<Writer>, signalled: seq<Writer>)
    requires last < |queue| && forall i, j :: 0 <= i < j < |queue| ==> queue[i] != queue[j]
    modifies queue[..last + 1]
    ensures leader.done == old(leader.done) && leader.status == old(leader.status)
    ensures rest == queue[last + 1..]
    ensures forall w :: w in queue[..last + 1] && w != leader ==> w.done && w.status == status && w in signalled
    ensures rest != [] ==> rest[0] in signalled
    ensures forall w :: w in signalled ==> w in queue[..last + 1] || (rest != [] && w == rest[0])
  {
    rest, signalled := queue, [];
    ghost var popped := 0;
    while true
      invariant popped <= last && rest == queue[popped..]
      invariant forall w :: w in queue[..popped] && w != leader ==> w.done && w.status == status && w in signalled
      invariant forall w :: w in signalled ==> w in queue[..popped]
      invariant leader.done == old(leader.done) && leader.status == old(leader.status)
      decreases last - popped
    {
      var ready := rest[0];
      rest := rest[1..];
      assert queue[..popped + 1] == queue[..popped] + [ready];
      if ready != leader {
        ready.status, ready.done := status, true;
        signalled := signalled + [ready];
      }
      if ready == queue[last] {
        break;
      }
      popped := popped + 1;
    }
    if rest != [] {
      signalled := signalled + [rest[0]];
    }
  }
}
