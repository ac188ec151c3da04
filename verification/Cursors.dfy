/** A plain cursor over a sequence, the measure of every iterator: it stands at a place, or past the
    end, which is also where stepping back from the first place leads. */
module Cursors {
  import opened Options

  datatype Move<K> = ToFirst | ToLast | SeekTo(target: K) | ToNext | ToPrev

  /** How many elements from the front on lie before the target. */
  function Place<E, K>(es: seq<E>, before: (E, K) -> bool, target: K): (p: nat)
    ensures p <= |es|
  {
    if es == [] || !before(es[0], target) then 0 else 1 + Place(es[1..], before, target)
  }

  lemma {:induction false} PlaceIsUnique<E, K>(es: seq<E>, before: (E, K) -> bool, target: K, p: nat)
    requires p <= |es| && (forall i :: 0 <= i < p ==> before(es[i], target))
    requires p < |es| ==> !before(es[p], target)
    ensures Place(es, before, target) == p
    decreases p
  {
    if p > 0 {
      PlaceIsUnique(es[1..], before, target, p - 1);
    }
  }

  lemma {:induction false} PlaceSplits<E, K>(es: seq<E>, before: (E, K) -> bool, target: K)
    ensures var p := Place(es, before, target);
            (forall i :: 0 <= i < p ==> before(es[i], target)) && (p < |es| ==> !before(es[p], target))
  {
    if es != [] && before(es[0], target) {
      PlaceSplits(es[1..], before, target);
    }
  }

  /** Stepping from nowhere is not allowed to callers and is taken to leave the cursor where it is. */
  function Moved<E, K>(es: seq<E>, before: (E, K) -> bool, p: nat, move: Move<K>): (p': nat)
    requires p <= |es|
    ensures p' <= |es|
  {
    match move
    case ToFirst => 0
    case ToLast => if es == [] then 0 else |es| - 1
    case SeekTo(target) => Place(es, before, target)
    case ToNext => if p < |es| then p + 1 else p
    case ToPrev => if p == |es| then p else if p == 0 then |es| else p - 1
  }

  function ElementAt<E>(es: seq<E>, p: nat): Option<E> {
    if p < |es| then Some(es[p]) else None
  }

  /** What a plain cursor shows after each call. */
  function Trace<E, K>(es: seq<E>, before: (E, K) -> bool, p: nat, moves: seq<Move<K>>): seq<Option<E>>
    requires p <= |es|
    decreases |moves|
  {
    if moves == [] then []
    else
      var p' := Moved(es, before, p, moves[0]);
      [ElementAt(es, p')] + Trace(es, before, p', moves[1..])
  }

  /** Walking over the whole sequence: to the first element, and on until the end. */
  function Walk<K>(n: nat): seq<Move<K>> {
    [ToFirst] + seq(n, _ => ToNext)
  }

  lemma {:induction false} StepsShowAll<E, K>(es: seq<E>, before: (E, K) -> bool, p: nat)
    requires p <= |es|
    ensures Trace(es, before, p, seq(|es| - p, _ => ToNext))
            == seq(|es| - p, i requires 0 <= i < |es| - p => ElementAt(es, p + 1 + i))
    decreases |es| - p
  {
    if p < |es| {
      StepsShowAll(es, before, p + 1);
      assert seq(|es| - p, _ => Move<K>.ToNext)[1..] == seq(|es| - p - 1, _ => Move<K>.ToNext);
    }
  }

  /** Such a walk shows every element in order, and then nothing. */
  lemma WalkShowsAll<E, K>(es: seq<E>, before: (E, K) -> bool, p: nat)
    requires p <= |es|
    ensures Trace(es, before, p, Walk(|es|)) == seq(|es| + 1, i requires 0 <= i < |es| + 1 => ElementAt(es, i))
  {
    StepsShowAll(es, before, 0);
    assert Walk<K>(|es|)[1..] == seq(|es|, _ => Move<K>.ToNext);
  }
}
