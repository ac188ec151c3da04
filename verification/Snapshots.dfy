/** The list of snapshots in use, linked in order of their sequence numbers. */
module Snapshots {
  import CacheStates
  import opened LruCaches

  const HEAD: nat := 0

  ghost predicate OldestFirst(sequences: seq<nat>, held: seq<nat>) {
    && (forall i :: 0 <= i < |held| ==> held[i] < |sequences|)
    && (forall i, j :: 0 <= i < j < |held| ==> sequences[held[i]] <= sequences[held[j]])
  }

  class SnapshotList {
    /** Sequence number of each snapshot ever taken; the head's is not used. */
    var sequences: seq<nat>
    var next: seq<nat>
    var prev: seq<nat>
    /** The snapshots in the list, oldest first. */
    ghost var held: seq<nat>

    ghost predicate Valid()
      reads this
    {
      && |sequences| == |next| == |prev| > 0
      && Ring(next, prev, HEAD, held) && OldestFirst(sequences, held)
    }

    constructor ()
      ensures Valid() && held == []
    {
      sequences, next, prev, held := [0], [HEAD], [HEAD], [];
    }

    predicate Empty()
      requires |next| > 0
      reads this
    {
      next[HEAD] == HEAD
    }

    lemma EmptyMeansNoneHeld()
      requires Valid()
      ensures Empty() <==> held == []
    {
      FirstOf(next, prev, HEAD, held);
    }

    /** The least sequence number a reader may still ask for. */
    method Oldest() returns (s: nat)
      requires Valid() && held != []
      ensures exists i :: 0 <= i < |held| && sequences[held[i]] == s
      ensures forall i :: 0 <= i < |held| ==> s <= sequences[held[i]]
    {
      FirstOf(next, prev, HEAD, held);
      assert next[HEAD] == held[0];
      s := sequences[next[HEAD]];
    }

    /** The sequence number down to which a compaction must keep what readers see: that of the oldest
        snapshot, or the last one of all if none is held. */
    method SmallestSnapshot(lastSequence: nat) returns (s: nat)
      requires Valid() && forall i :: 0 <= i < |held| ==> sequences[held[i]] <= lastSequence
      ensures s <= lastSequence && forall i :: 0 <= i < |held| ==> s <= sequences[held[i]]
      ensures if held == [] then s == lastSequence else exists i :: 0 <= i < |held| && sequences[held[i]] == s
    {
      EmptyMeansNoneHeld();
      if Empty() {
        s := lastSequence;
      } else {
        s := Oldest();
      }
    }

    /** Sequence numbers are handed in ascending order, so the new one goes last. */
    method New(sequence: nat) returns (snapshot: nat)
      requires Valid() && forall i :: 0 <= i < |held| ==> sequences[held[i]] <= sequence
      modifies this
      ensures Valid() && held == old(held) + [snapshot]
      ensures snapshot !in old(held) && sequences == old(sequences) + [sequence] && snapshot == |old(sequences)|
    {
      hide Ring, CacheStates.Distinct;
      snapshot := |sequences|;
      OneMoreNode();
      StillAscendingWith(sequence);
      var last := prev[HEAD];
      ghost var next1, prev1 := next + [snapshot], prev + [snapshot];
      Linked(next1, prev1, HEAD, held, snapshot);
      sequences := sequences + [sequence];
      next := (next + [snapshot])[snapshot := HEAD][last := snapshot];
      prev := (prev + [snapshot])[snapshot := last][HEAD := snapshot];
      held := held + [snapshot];
    }

    lemma StillAscendingWith(sequence: nat)
      requires Valid() && forall i :: 0 <= i < |held| ==> sequences[held[i]] <= sequence
      ensures |sequences| !in held && OldestFirst(sequences + [sequence], held + [|sequences|])
    {
      assert forall h :: h in held ==> h < |sequences|;
    }

    lemma OneMoreNode()
      requires Valid()
      ensures Ring(next + [|sequences|], prev + [|sequences|], HEAD, held)
    {
      Elsewhere(next, prev, next + [|sequences|], prev + [|sequences|], HEAD, held);
    }

    method Delete(snapshot: nat)
      requires Valid() && snapshot in held
      modifies this
      ensures Valid() && held == CacheStates.Without(old(held), snapshot) && sequences == old(sequences)
    {
      hide Ring, OldestFirst, CacheStates.Without;
      Unlinked(next, prev, HEAD, held, snapshot);
      FewerAscending(sequences, held, snapshot, next, prev);
      ghost var rest := CacheStates.Without(held, snapshot);
      var next', prev' := NextUnlinked(next, prev, snapshot), PrevUnlinked(next, prev, snapshot);
      next, prev, held := next', prev', rest;
    }

    static lemma FewerAscending(sequences: seq<nat>, s: seq<nat>, e: nat, next: seq<nat>, prev: seq<nat>)
      requires OldestFirst(sequences, s) && Ring(next, prev, HEAD, s) && e in s
      ensures OldestFirst(sequences, CacheStates.Without(s, e))
    {
      var k :| 0 <= k < |s| && s[k] == e;
      WithoutAt(s, k);
      hide Ring, CacheStates.Without, CacheStates.Distinct;
      OneLess(sequences, s, k);
    }

    static lemma OneLess(sequences: seq<nat>, s: seq<nat>, k: nat)
      requires OldestFirst(sequences, s) && k < |s|
      ensures OldestFirst(sequences, s[..k] + s[k + 1..])
    {
      var r := s[..k] + s[k + 1..];
      forall i | 0 <= i < |r|
        ensures r[i] == s[if i < k then i else i + 1]
      {
      }
    }
  }
}
