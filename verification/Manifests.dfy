/** Applying edits to a version, and rebuilding the version set from the manifest. */
module Manifests {
  import opened VersionEdits

  type Less = (Bytes, Bytes) -> bool

  /** The comparator is a strict total order. */
  ghost predicate TotalOrder(less: Less) {
    && (forall a :: !less(a, a))
    && (forall a, b, c :: less(a, b) && less(b, c) ==> less(a, c))
    && (forall a, b :: less(a, b) || less(b, a) || a == b)
  }

  // ------------------------------------------------------------------ one level

  /** Files are listed by smallest key, ties broken by number. */
  predicate Before(less: Less, f: Meta, g: Meta) {
    less(f.smallest, g.smallest) || (!less(g.smallest, f.smallest) && f.number < g.number)
  }

  /** The ordered set tells two files apart. */
  predicate Apart(less: Less, f: Meta, g: Meta) {
    Before(less, f, g) || Before(less, g, f)
  }

  ghost predicate Listed(less: Less, fs: seq<Meta>) {
    forall i, j :: 0 <= i < j < |fs| ==> Before(less, fs[i], fs[j])
  }

  /** What a builder has gathered for a level: numbers deleted, and files added, in order. */
  datatype LevelState = LevelState(deleted: set<nat>, added: seq<Meta>)

  const NO_CHANGE: LevelState := LevelState({}, [])

  /** Insertion into the ordered set of added files; one already there stays. */
  function InsertFile(less: Less, fs: seq<Meta>, f: Meta): seq<Meta> {
    if fs == [] then [f]
    else if Before(less, f, fs[0]) then [f] + fs
    else if Before(less, fs[0], f) then [fs[0]] + InsertFile(less, fs[1..], f)
    else fs
  }

  function AddFiles(less: Less, st: LevelState, adds: seq<Meta>): LevelState {
    if adds == [] then st
    else
      var before := AddFiles(less, st, adds[..|adds| - 1]);
      var f := adds[|adds| - 1];
      LevelState(before.deleted - {f.number}, InsertFile(less, before.added, f))
  }

  /** Deletions first, then additions. */
  function ApplyLevel(less: Less, st: LevelState, deletes: set<nat>, adds: seq<Meta>): LevelState {
    AddFiles(less, st.(deleted := st.deleted + deletes), adds)
  }

  /** Where the files of the base that go before a file end. */
  function UpperBound(less: Less, base: seq<Meta>, from: nat, f: Meta): (n: nat)
    requires from <= |base|
    ensures from <= n <= |base|
    ensures forall i :: from <= i < n ==> !Before(less, f, base[i])
    ensures n < |base| ==> Before(less, f, base[n])
    decreases |base| - from
  {
    if from < |base| && !Before(less, f, base[from]) then UpperBound(less, base, from + 1, f) else from
  }

  /** The base's files and the added ones in one listing. */
  function Merged(less: Less, base: seq<Meta>, from: nat, added: seq<Meta>): seq<Meta>
    requires from <= |base|
    decreases |added|
  {
    if added == [] then base[from..]
    else
      var n := UpperBound(less, base, from, added[0]);
      base[from..n] + [added[0]] + Merged(less, base, n, added[1..])
  }

  function Remaining(fs: seq<Meta>, deleted: set<nat>): seq<Meta> {
    if fs == [] then []
    else Remaining(fs[..|fs| - 1], deleted) + if fs[|fs| - 1].number in deleted then [] else [fs[|fs| - 1]]
  }

  /** The level a builder saves: merged, less the files deleted. */
  function Saved(less: Less, base: seq<Meta>, st: LevelState): seq<Meta> {
    Remaining(Merged(less, base, 0, st.added), st.deleted)
  }

  // ------------------------------------------------------------------ what is saved

  lemma {:induction false} InsertFileMembers(less: Less, fs: seq<Meta>, f: Meta)
    requires TotalOrder(less) && Listed(less, fs)
    requires forall g :: g in fs ==> Apart(less, g, f)
    ensures Listed(less, InsertFile(less, fs, f))
    ensures forall g :: g in InsertFile(less, fs, f) <==> g in fs || g == f
  {
    if fs != [] {
      assert fs == [fs[0]] + fs[1..] && Apart(less, fs[0], f);
      if Before(less, f, fs[0]) {
        assert forall i :: 0 < i < |fs| ==> Before(less, fs[0], fs[i]);
        assert forall i :: 0 <= i < |fs| ==> Before(less, f, fs[i]);
      } else {
        InsertFileMembers(less, fs[1..], f);
        var rest := InsertFile(less, fs[1..], f);
        assert forall i :: 0 <= i < |rest| ==> rest[i] in rest;
        assert forall g :: g in fs[1..] ==> Before(less, fs[0], g);
      }
    }
  }

  lemma {:induction false} RemainingMembers(less: Less, fs: seq<Meta>, deleted: set<nat>)
    requires Listed(less, fs)
    ensures forall g :: g in Remaining(fs, deleted) <==> g in fs && g.number !in deleted
    ensures Listed(less, Remaining(fs, deleted))
  {
    hide Before;
    if fs != [] {
      var front := fs[..|fs| - 1];
      RemainingMembers(less, front, deleted);
      assert fs == front + [fs[|fs| - 1]];
      assert forall g :: g in front ==> Before(less, g, fs[|fs| - 1]);
      ListedJoin(less, Remaining(front, deleted), [fs[|fs| - 1]]);
    }
  }

  lemma {:induction false} ListedJoin(less: Less, a: seq<Meta>, b: seq<Meta>)
    requires Listed(less, a) && Listed(less, b)
    requires forall f, g :: f in a && g in b ==> Before(less, f, g)
    ensures Listed(less, a + b)
  {
    assert forall i :: 0 <= i < |a| ==> a[i] in a;
    assert forall i :: 0 <= i < |b| ==> b[i] in b;
  }

  lemma {:induction false} MergedMembers(less: Less, base: seq<Meta>, from: nat, added: seq<Meta>)
    requires TotalOrder(less) && Listed(less, base) && Listed(less, added) && from <= |base|
    requires forall f, g :: f in added && g in base ==> Apart(less, f, g)
    ensures forall g :: g in Merged(less, base, from, added) <==> g in base[from..] || g in added
    ensures Listed(less, Merged(less, base, from, added))
    decreases |added|
  {
    if added != [] {
      var f, rest := added[0], added[1..];
      var n := UpperBound(less, base, from, f);
      assert added == [f] + rest;
      MergedMembers(less, base, n, rest);
      assert base[from..] == base[from..n] + base[n..];
      MergedOrder(less, base, from, n, f, rest, Merged(less, base, n, rest));
    }
  }

  lemma MergedOrder(less: Less, base: seq<Meta>, from: nat, n: nat, f: Meta, rest: seq<Meta>, tail: seq<Meta>)
    requires TotalOrder(less) && Listed(less, base) && Listed(less, [f] + rest) && from <= n <= |base|
    requires forall g :: g in base ==> Apart(less, f, g)
    requires forall i :: from <= i < n ==> !Before(less, f, base[i])
    requires n < |base| ==> Before(less, f, base[n])
    requires Listed(less, tail) && forall g :: g in tail <==> g in base[n..] || g in rest
    ensures Listed(less, base[from..n] + [f] + tail)
  {
    forall g | g in rest
      ensures Before(less, f, g)
    {
      var i :| 0 <= i < |rest| && rest[i] == g;
      var longer, j := [f] + rest, i + 1;
      assert longer[0] == f && longer[j] == g;
      assert Before(less, longer[0], longer[j]);
    }
    forall g | g in base[n..]
      ensures Before(less, f, g)
    {
      var i :| n <= i < |base| && base[i] == g;
      assert n < i ==> Before(less, base[n], base[i]);
      BeforeTransitive(less, f, base[n], base[i]);
    }
    forall g | g in base[from..n]
      ensures Before(less, g, f)
    {
      assert g in base && !Before(less, f, g);
    }
    forall g, h | g in base[from..n] && h in tail
      ensures Before(less, g, h)
    {
      BeforeTransitive(less, g, f, h);
    }
    ListedJoin(less, base[from..n], [f]);
    ListedJoin(less, base[from..n] + [f], tail);
  }

  lemma BeforeTransitive(less: Less, a: Meta, b: Meta, c: Meta)
    requires TotalOrder(less) && Before(less, a, b) && (b == c || Before(less, b, c))
    ensures Before(less, a, c)
  {
  }

  /** A listing is determined by its members. */
  lemma {:induction false} ListingUnique(less: Less, a: seq<Meta>, b: seq<Meta>)
    requires TotalOrder(less) && Listed(less, a) && Listed(less, b)
    requires forall g :: g in a <==> g in b
    ensures a == b
  {
    EmptyTogether(a, b);
    EmptyTogether(b, a);
    if a != [] {
      FirstIsLeast(less, a);
      FirstIsLeast(less, b);
      assert a[0] in b && b[0] in a;
      assert a[0] == b[0] by {
        if a[0] != b[0] {
          BeforeTransitive(less, a[0], b[0], a[0]);
        }
      }
      assert a == [a[0]] + a[1..] && b == [b[0]] + b[1..];
      forall g
        ensures g in a[1..] <==> g in b[1..]
      {
      }
      ListingUnique(less, a[1..], b[1..]);
    }
  }

  lemma EmptyTogether(a: seq<Meta>, b: seq<Meta>)
    requires forall g :: g in a <==> g in b
    ensures b != [] ==> a != []
  {
    if b != [] {
      assert b[0] in a;
    }
  }

  lemma FirstIsLeast(less: Less, a: seq<Meta>)
    requires TotalOrder(less) && Listed(less, a) && a != []
    ensures forall g :: g in a ==> g == a[0] || Before(less, a[0], g)
    ensures a[0] !in a[1..]
  {
  }

  // ------------------------------------------------------------------ many edits at once

  datatype LevelEdit = LevelEdit(deletes: set<nat>, adds: seq<Meta>)

  function AllAdds(edits: seq<LevelEdit>): seq<Meta> {
    if edits == [] then [] else AllAdds(edits[..|edits| - 1]) + edits[|edits| - 1].adds
  }

  function ApplyAll(less: Less, edits: seq<LevelEdit>): LevelState {
    if edits == [] then NO_CHANGE
    else ApplyLevel(less, ApplyAll(less, edits[..|edits| - 1]), edits[|edits| - 1].deletes, edits[|edits| - 1].adds)
  }

  /** A version after each edit in turn. */
  function OneByOne(less: Less, base: seq<Meta>, edits: seq<LevelEdit>): seq<Meta> {
    if edits == [] then base
    else
      var last := edits[|edits| - 1];
      Saved(less, OneByOne(less, base, edits[..|edits| - 1]), ApplyLevel(less, NO_CHANGE, last.deletes, last.adds))
  }

  predicate HasNumber(fs: seq<Meta>, n: nat) {
    exists i :: 0 <= i < |fs| && fs[i].number == n
  }

  /** The base is a listing, and no file of the same smallest key and number comes twice. */
  ghost predicate AllApart(less: Less, base: seq<Meta>, adds: seq<Meta>) {
    && Listed(less, base)
    && AddsApart(less, base, adds)
    && (forall i, j :: 0 <= i < j < |adds| ==> Apart(less, adds[i], adds[j]))
  }

  ghost predicate AddsApart(less: Less, fs: seq<Meta>, adds: seq<Meta>) {
    forall f, g :: f in adds && g in fs ==> Apart(less, f, g)
  }

  /** Adding files one at a time. */
  lemma {:induction false} AddedMembers(less: Less, st: LevelState, adds: seq<Meta>)
    requires TotalOrder(less) && Listed(less, st.added) && AddsApart(less, st.added, adds)
    requires forall i, j :: 0 <= i < j < |adds| ==> Apart(less, adds[i], adds[j])
    ensures var r := AddFiles(less, st, adds);
            && Listed(less, r.added)
            && (forall f :: f in r.added <==> f in st.added || f in adds)
            && (forall n :: n in r.deleted <==> n in st.deleted && !HasNumber(adds, n))
  {
    if adds != [] {
      hide TotalOrder, Listed, Apart, HasNumber, InsertFile;
      var front, f := adds[..|adds| - 1], adds[|adds| - 1];
      assert adds == front + [f];
      LastApart(less, st.added, front, f);
      AddedMembers(less, st, front);
      InsertFileMembers(less, AddFiles(less, st, front).added, f);
      forall n
        ensures HasNumber(adds, n) <==> HasNumber(front, n) || n == f.number
      {
        NumberMembers(front, n);
        NumberMembers(adds, n);
      }
    }
  }

  lemma LastApart(less: Less, added: seq<Meta>, front: seq<Meta>, f: Meta)
    requires AddsApart(less, added, front + [f])
    requires forall i, j :: 0 <= i < j < |front + [f]| ==> Apart(less, (front + [f])[i], (front + [f])[j])
    ensures AddsApart(less, added, front)
    ensures forall i, j :: 0 <= i < j < |front| ==> Apart(less, front[i], front[j])
    ensures forall g :: g in added || g in front ==> Apart(less, g, f)
  {
    hide Before;
    var all := front + [f];
    assert forall i :: 0 <= i < |front| ==> all[i] == front[i];
    assert all[|front|] == f && f in all && forall g :: Apart(less, f, g) == Apart(less, g, f);
    forall g | g in front
      ensures Apart(less, g, f)
    {
      var i :| 0 <= i < |front| && front[i] == g;
      assert Apart(less, all[i], all[|front|]);
    }
  }

  lemma SavedMembers(less: Less, base: seq<Meta>, st: LevelState)
    requires TotalOrder(less) && Listed(less, base) && Listed(less, st.added) && AddsApart(less, base, st.added)
    ensures Listed(less, Saved(less, base, st))
    ensures forall g :: g in Saved(less, base, st) <==> (g in base || g in st.added) && g.number !in st.deleted
  {
    MergedMembers(less, base, 0, st.added);
    RemainingMembers(less, Merged(less, base, 0, st.added), st.deleted);
    assert base[0..] == base;
  }

  /** An edit takes a number off the level; one that also adds it keeps every file of that number. */
  predicate Deletes(e: LevelEdit, n: nat) {
    n in e.deletes && !HasNumber(e.adds, n)
  }

  /** A single edit deletes, then adds. */
  lemma OneEdit(less: Less, base: seq<Meta>, e: LevelEdit)
    requires TotalOrder(less) && AllApart(less, base, e.adds)
    ensures var saved := Saved(less, base, ApplyLevel(less, NO_CHANGE, e.deletes, e.adds));
            && Listed(less, saved)
            && forall g :: g in saved <==> (g in base && !Deletes(e, g.number)) || g in e.adds
  {
    AddedMembers(less, NO_CHANGE.(deleted := {} + e.deletes), e.adds);
    SavedMembers(less, base, ApplyLevel(less, NO_CHANGE, e.deletes, e.adds));
  }

  /** What has become of a file number on a level: never there, there, taken off, or used once more
      after it was taken off. */
  datatype Stage = Unused | Present | Gone | Back

  function NextStage(before: Stage, e: LevelEdit, n: nat): Stage {
    if Deletes(e, n) then if before.Unused? then Unused else Gone
    else if !HasNumber(e.adds, n) then before
    else if before.Gone? || before.Back? then Back
    else Present
  }

  function StageOf(base: seq<Meta>, edits: seq<LevelEdit>, n: nat): Stage {
    if edits == [] then if HasNumber(base, n) then Present else Unused
    else NextStage(StageOf(base, edits[..|edits| - 1], n), edits[|edits| - 1], n)
  }

  /** No number is used again on the level once it was taken off; taken off anew, it does no harm. */
  ghost predicate NoneBack(base: seq<Meta>, edits: seq<LevelEdit>) {
    forall n :: StageOf(base, edits, n) != Back
  }

  /** Which of the files of a number seen so far the version holds, and whether the builder has the
      number among the deleted. */
  ghost predicate Stands(stage: Stage, seen: seq<Meta>, gone: set<nat>, v: seq<Meta>, n: nat) {
    match stage
    case Unused => forall f :: f in seen ==> f.number != n
    case Present => n !in gone && HasNumber(seen, n) && forall f :: f in seen && f.number == n ==> f in v
    case Gone => n in gone && HasNumber(seen, n) && forall f :: f in seen && f.number == n ==> f !in v
    case Back => n !in gone && exists f :: f in seen && f.number == n && f !in v
  }

  lemma StandsNext(stage: Stage, seen: seq<Meta>, gone: set<nat>, v: seq<Meta>, e: LevelEdit, gone': set<nat>,
      v': seq<Meta>, n: nat)
    requires Stands(stage, seen, gone, v, n) && forall f :: f in e.adds ==> f !in seen
    requires n in gone' <==> (n in gone || n in e.deletes) && !HasNumber(e.adds, n)
    requires forall g :: g in v' <==> (g in v && !Deletes(e, g.number)) || g in e.adds
    ensures Stands(NextStage(stage, e, n), seen + e.adds, gone', v', n)
  {
    NumberMembers(seen, n);
    NumberMembers(e.adds, n);
    NumberMembers(seen + e.adds, n);
    hide HasNumber;
    if HasNumber(seen, n) {
      var f :| f in seen && f.number == n && (stage.Back? ==> f !in v);
      assert f in seen + e.adds;
    }
  }

  lemma NumberMembers(fs: seq<Meta>, n: nat)
    ensures HasNumber(fs, n) <==> exists f :: f in fs && f.number == n
  {
    if f :| f in fs && f.number == n {
      assert HasNumber(fs, n);
    }
  }

  /** What both ways have in common after some edits. */
  ghost predicate Gathered(less: Less, base: seq<Meta>, edits: seq<LevelEdit>) {
    var st, v, seen := ApplyAll(less, edits), OneByOne(less, base, edits), base + AllAdds(edits);
    && Listed(less, st.added) && Listed(less, v)
    && (forall f :: f in st.added <==> f in AllAdds(edits))
    && (forall f :: f in v ==> f in seen)
    && (forall n :: Stands(StageOf(base, edits, n), seen, st.deleted, v, n))
  }

  lemma ApartSplit(less: Less, base: seq<Meta>, front: seq<Meta>, last: seq<Meta>)
    requires AllApart(less, base, front + last)
    ensures AllApart(less, base, front) && AllApart(less, base, last) && AddsApart(less, front, last)
  {
    var all := front + last;
    assert forall i :: 0 <= i < |front| ==> all[i] == front[i];
    assert forall j :: 0 <= j < |last| ==> all[|front| + j] == last[j];
    assert forall f :: f in front || f in last ==> f in all;
    forall f, g | f in last && g in front
      ensures Apart(less, f, g)
    {
      var i :| 0 <= i < |front| && front[i] == g;
      var j :| 0 <= j < |last| && last[j] == f;
      assert Apart(less, all[i], all[|front| + j]);
    }
  }

  lemma {:induction false} AllGathered(less: Less, base: seq<Meta>, edits: seq<LevelEdit>)
    requires TotalOrder(less) && AllApart(less, base, AllAdds(edits))
    ensures Gathered(less, base, edits)
  {
    if edits == [] {
      assert base + [] == base;
      forall n
        ensures Stands(StageOf(base, [], n), base, {}, base, n)
      {
        NumberMembers(base, n);
      }
    } else {
      var front, e := edits[..|edits| - 1], edits[|edits| - 1];
      assert edits == front + [e];
      ApartSplit(less, base, AllAdds(front), e.adds);
      AllGathered(less, base, front);
      GatheredStep(less, base, front, e);
    }
  }

  lemma GatheredStep(less: Less, base: seq<Meta>, front: seq<LevelEdit>, e: LevelEdit)
    requires TotalOrder(less) && Gathered(less, base, front)
    requires AllApart(less, base, e.adds) && AddsApart(less, AllAdds(front), e.adds)
    ensures Gathered(less, base, front + [e])
  {
    var all := front + [e];
    assert all[..|all| - 1] == front;
    hide TotalOrder, Listed, AllApart, Saved, HasNumber, Deletes, NextStage, Stands, AddFiles, Before;
    var st, v := ApplyAll(less, front), OneByOne(less, base, front);
    ApartFromSeen(less, base, front, v, e);
    assert AddsApart(less, st.added, e.adds);
    hide AddsApart;
    AddedOnce(less, st, e, base);
    OneEdit(less, v, e);
    forall n
      ensures Stands(StageOf(base, all, n), base + AllAdds(all), ApplyAll(less, all).deleted, OneByOne(less, base, all),
              n)
    {
      StandsAfter(less, base, front, e, n);
    }
  }

  lemma OneMore(less: Less, base: seq<Meta>, front: seq<LevelEdit>, e: LevelEdit, n: nat)
    ensures AllAdds(front + [e]) == AllAdds(front) + e.adds
    ensures ApplyAll(less, front + [e]) == ApplyLevel(less, ApplyAll(less, front), e.deletes, e.adds)
    ensures OneByOne(less, base, front + [e]) == Saved(less, OneByOne(less, base, front),
            ApplyLevel(less, NO_CHANGE, e.deletes, e.adds))
    ensures StageOf(base, front + [e], n) == NextStage(StageOf(base, front, n), e, n)
  {
    hide Saved, ApplyLevel, NextStage;
    assert (front + [e])[..|front|] == front;
  }

  lemma StandsAfter(less: Less, base: seq<Meta>, front: seq<LevelEdit>, e: LevelEdit, n: nat)
    requires forall f :: f in e.adds ==> f !in base + AllAdds(front)
    requires Stands(StageOf(base, front, n), base + AllAdds(front), ApplyAll(less, front).deleted,
             OneByOne(less, base, front), n)
    requires var r, st := ApplyLevel(less, ApplyAll(less, front), e.deletes, e.adds), ApplyAll(less, front);
             n in r.deleted <==> (n in st.deleted || n in e.deletes) && !HasNumber(e.adds, n)
    requires var v := OneByOne(less, base, front);
             forall g :: g in Saved(less, v, ApplyLevel(less, NO_CHANGE, e.deletes, e.adds)) <==>
                      (g in v && !Deletes(e, g.number)) || g in e.adds
    ensures var all := front + [e];
            Stands(StageOf(base, all, n), base + AllAdds(all), ApplyAll(less, all).deleted, OneByOne(less, base, all),
              n)
  {
    var all := front + [e];
    OneMore(less, base, front, e, n);
    hide Saved, HasNumber, Deletes, NextStage, Stands, ApplyLevel, AllAdds, ApplyAll, OneByOne, StageOf;
    assert base + AllAdds(all) == base + AllAdds(front) + e.adds;
    StandsNext(StageOf(base, front, n), base + AllAdds(front), ApplyAll(less, front).deleted,
      OneByOne(less, base, front), e,
               ApplyAll(less, all).deleted, OneByOne(less, base, all), n);
  }

  lemma AddedOnce(less: Less, st: LevelState, e: LevelEdit, base: seq<Meta>)
    requires TotalOrder(less) && Listed(less, st.added) && AddsApart(less, st.added, e.adds)
             && AllApart(less, base, e.adds)
    ensures var r := ApplyLevel(less, st, e.deletes, e.adds);
            && Listed(less, r.added)
            && (forall f :: f in r.added <==> f in st.added || f in e.adds)
            && (forall n :: n in r.deleted <==> (n in st.deleted || n in e.deletes) && !HasNumber(e.adds, n))
  {
    AddedMembers(less, st.(deleted := st.deleted + e.deletes), e.adds);
  }

  lemma ApartFromSeen(less: Less, base: seq<Meta>, front: seq<LevelEdit>, v: seq<Meta>, e: LevelEdit)
    requires TotalOrder(less) && AllApart(less, base, e.adds) && AddsApart(less, AllAdds(front), e.adds)
    requires Listed(less, v) && forall f :: f in v ==> f in base + AllAdds(front)
    ensures AllApart(less, v, e.adds)
    ensures forall f :: f in e.adds ==> f !in base + AllAdds(front)
  {
    assert forall f, g :: f in e.adds && (g in base || g in AllAdds(front)) ==> Apart(less, f, g);
    assert forall f :: !Apart(less, f, f);
  }

  lemma SavedOrNot(less: Less, base: seq<Meta>, edits: seq<LevelEdit>, f: Meta)
    requires TotalOrder(less) && AllApart(less, base, AllAdds(edits)) && Gathered(less, base, edits)
    ensures Listed(less, OneByOne(less, base, edits)) && Listed(less, Saved(less, base, ApplyAll(less, edits)))
    ensures f in OneByOne(less, base, edits) ==> f in base + AllAdds(edits)
    ensures f in Saved(less, base, ApplyAll(less, edits)) <==>
              f in base + AllAdds(edits) && f.number !in ApplyAll(less, edits).deleted
  {
    hide NextStage, Stands, Saved, ApplyLevel;
    SavedMembers(less, base, ApplyAll(less, edits));
  }

  lemma NumberStands(less: Less, base: seq<Meta>, edits: seq<LevelEdit>, n: nat)
    requires Gathered(less, base, edits)
    ensures Stands(StageOf(base, edits, n), base + AllAdds(edits), ApplyAll(less, edits).deleted,
            OneByOne(less, base, edits), n)
  {
    hide NextStage, Stands, Saved, ApplyLevel, Listed;
  }

  /** Saving at once keeps what saving after each edit keeps, and a file whose number came back. */
  lemma KeptAlike(less: Less, base: seq<Meta>, edits: seq<LevelEdit>, n: nat)
    requires TotalOrder(less) && AllApart(less, base, AllAdds(edits)) && Gathered(less, base, edits)
    ensures var saved, v := Saved(less, base, ApplyAll(less, edits)), OneByOne(less, base, edits);
            if StageOf(base, edits, n) == Back then exists f: Meta :: f in saved && f !in v
            else forall f: Meta :: f.number == n ==> (f in saved <==> f in v)
  {
    hide Gathered, AllApart, TotalOrder, Listed, Saved, ApplyAll, OneByOne, StageOf, HasNumber, AllAdds;
    NumberStands(less, base, edits, n);
    var st, v, seen := ApplyAll(less, edits), OneByOne(less, base, edits), base + AllAdds(edits);
    forall f
      ensures f in v ==> f in seen
      ensures f in Saved(less, base, st) <==> f in seen && f.number !in st.deleted
    {
      SavedOrNot(less, base, edits, f);
    }
    if StageOf(base, edits, n) == Back {
      var f :| f in seen && f.number == n && f !in v;
      assert f in Saved(less, base, st);
    }
  }

  /** Gathering many edits in one builder and saving once gives the same level as saving after each,
      exactly when no file number is used again on the level after it was taken off. */
  lemma ManyAtOnceIff(less: Less, base: seq<Meta>, edits: seq<LevelEdit>)
    requires TotalOrder(less) && AllApart(less, base, AllAdds(edits))
    ensures Saved(less, base, ApplyAll(less, edits)) == OneByOne(less, base, edits) <==> NoneBack(base, edits)
  {
    hide Gathered, AllApart, TotalOrder, Saved, ApplyLevel, NextStage, Listed, AllAdds;
    AllGathered(less, base, edits);
    var saved, v := Saved(less, base, ApplyAll(less, edits)), OneByOne(less, base, edits);
    if !NoneBack(base, edits) {
      var n :| StageOf(base, edits, n) == Back;
      KeptAlike(less, base, edits, n);
    } else {
      forall f
        ensures f in saved <==> f in v
      {
        KeptAlike(less, base, edits, f.number);
      }
      SavedOrNot(less, base, edits, Meta(0, 0, [], []));
      ListingUnique(less, saved, v);
    }
  }

  // ------------------------------------------------------------------ new numbers

  ghost predicate NumberUnused(fs: seq<Meta>, f: Meta) {
    forall g :: g in fs ==> g.number != f.number
  }

  /** Each file number is added to the level at most once, and not if the base has it there. */
  ghost predicate Fresh(base: seq<Meta>, adds: seq<Meta>) {
    && (forall f :: f in adds ==> NumberUnused(base, f))
    && (forall i, j :: 0 <= i < j < |adds| ==> adds[i].number != adds[j].number)
  }

  lemma FreshApart(less: Less, base: seq<Meta>, adds: seq<Meta>)
    requires TotalOrder(less) && Listed(less, base) && Fresh(base, adds)
    ensures AllApart(less, base, adds)
  {
    assert forall f, g :: f in adds && g in base ==> NumberUnused(base, f);
  }

  lemma NotSeenBefore(base: seq<Meta>, before: seq<Meta>, adds: seq<Meta>, n: nat)
    requires Fresh(base, before + adds) && HasNumber(adds, n)
    ensures !HasNumber(base + before, n)
  {
    var all := before + adds;
    var j :| 0 <= j < |adds| && adds[j].number == n;
    assert all[|before| + j] == adds[j] && NumberUnused(base, all[|before| + j]);
    forall i | 0 <= i < |base + before|
      ensures (base + before)[i].number != n
    {
      if i >= |base| {
        assert all[i - |base|] == (base + before)[i];
      }
    }
  }

  lemma FreshFront(base: seq<Meta>, before: seq<Meta>, adds: seq<Meta>)
    requires Fresh(base, before + adds)
    ensures Fresh(base, before)
  {
    var all := before + adds;
    assert forall i :: 0 <= i < |before| ==> all[i] == before[i];
  }

  /** A number that comes only once cannot come back. */
  lemma {:induction false} FreshNeverBack(base: seq<Meta>, edits: seq<LevelEdit>, n: nat)
    requires Fresh(base, AllAdds(edits))
    ensures StageOf(base, edits, n) != Back
    ensures !HasNumber(base + AllAdds(edits), n) ==> StageOf(base, edits, n) == Unused
  {
    hide HasNumber, Fresh;
    if edits == [] {
      assert base + [] == base;
    } else {
      var front, e := edits[..|edits| - 1], edits[|edits| - 1];
      FreshFront(base, AllAdds(front), e.adds);
      FreshNeverBack(base, front, n);
      NumberMembers(base + AllAdds(front), n);
      NumberMembers(base + AllAdds(edits), n);
      NumberMembers(e.adds, n);
      if HasNumber(e.adds, n) {
        NotSeenBefore(base, AllAdds(front), e.adds, n);
      }
    }
  }

  /** So new numbers are enough for gathering many edits to be the same as saving after each. */
  lemma ManyAtOnce(less: Less, base: seq<Meta>, edits: seq<LevelEdit>)
    requires TotalOrder(less) && Listed(less, base) && Fresh(base, AllAdds(edits))
    ensures Saved(less, base, ApplyAll(less, edits)) == OneByOne(less, base, edits)
  {
    hide Saved, ApplyAll, OneByOne, Fresh;
    FreshApart(less, base, AllAdds(edits));
    ManyAtOnceIff(less, base, edits);
    forall n
      ensures StageOf(base, edits, n) != Back
    {
      FreshNeverBack(base, edits, n);
    }
  }

  lemma AddOneFile(less: Less, st: LevelState, g: Meta)
    requires st.added == []
    ensures AddFiles(less, st, [g]) == LevelState(st.deleted - {g.number}, [g])
    ensures st.deleted + {} == st.deleted
  {
    assert [g][..0] == [];
    assert AddFiles(less, st, []) == st;
  }

  lemma DeletedThenAdded(less: Less, n: nat, g: Meta)
    requires g.number == n
    ensures ApplyAll(less, [LevelEdit({n}, [])]) == LevelState({n}, [])
    ensures ApplyAll(less, [LevelEdit({n}, []), LevelEdit({}, [g])]) == LevelState({}, [g])
  {
    var edits := [LevelEdit({n}, []), LevelEdit({}, [g])];
    assert edits[..1] == [edits[0]] && edits[..1][..0] == [];
    assert {} + {n} == {n} && {n} + {} == {n} && {n} - {n} == {};
    AddOneFile(less, LevelState({n}, []), g);
  }

  /** A level is saved as the listing that has the right members. */
  lemma SavedAs(less: Less, base: seq<Meta>, st: LevelState, saved: seq<Meta>)
    requires TotalOrder(less) && Listed(less, base) && Listed(less, st.added) && AddsApart(less, base, st.added)
    requires Listed(less, saved) && forall g :: g in saved <==> (g in base || g in st.added) && g.number !in st.deleted
    ensures Saved(less, base, st) == saved
  {
    hide Before, TotalOrder, Listed, Saved, AddsApart;
    SavedMembers(less, base, st);
    ListingUnique(less, Saved(less, base, st), saved);
  }

  /** A number deleted by one edit and added again by the next brings the base's own file back beside
      the new one. */
  lemma NumberReuseBringsFileBack(less: Less, f: Meta, g: Meta)
    requires TotalOrder(less) && Before(less, f, g) && f.number == g.number
    ensures var edits := [LevelEdit({f.number}, []), LevelEdit({}, [g])];
            && OneByOne(less, [f], edits) == [g]
            && Saved(less, [f], ApplyAll(less, edits)) == [f, g]
  {
    var e1, e2 := LevelEdit({f.number}, []), LevelEdit({}, [g]);
    DeletedThenAdded(less, f.number, g);
    SavedAs(less, [f], LevelState({}, [g]), [f, g]);
    SavedAs(less, [f], LevelState({f.number}, []), []);
    SavedAs(less, [], LevelState({}, [g]), [g]);
    EachEdit(less, f, g);
    hide Saved, ApplyLevel, TotalOrder, Before;
    assert [e1, e2][..1] == [e1] && [e1][..0] == [];
    assert OneByOne(less, [f], []) == [f];
    assert OneByOne(less, [f], [e1]) == [];
  }

  lemma EachEdit(less: Less, f: Meta, g: Meta)
    requires f.number == g.number
    ensures ApplyLevel(less, NO_CHANGE, {f.number}, []) == LevelState({f.number}, [])
    ensures ApplyLevel(less, NO_CHANGE, {}, [g]) == LevelState({}, [g])
  {
    AddOneFile(less, NO_CHANGE, g);
    NoFileAdded(less, LevelState({f.number}, []));
    assert {} + {f.number} == {f.number} && NO_CHANGE.deleted + {} == {} && {} - {g.number} == {};
  }

  lemma NoFileAdded(less: Less, st: LevelState)
    ensures AddFiles(less, st, []) == st
  {
  }

  /** The same with the first file added by an edit too. */
  lemma NumberReuseInOneBuilder(less: Less, f: Meta, g: Meta)
    requires TotalOrder(less) && Before(less, f, g) && f.number == g.number
    ensures var edits := [LevelEdit({}, [f]), LevelEdit({f.number}, []), LevelEdit({}, [g])];
            Saved(less, [], ApplyAll(less, edits)) == [f, g]
  {
    var edits := [LevelEdit({}, [f]), LevelEdit({f.number}, []), LevelEdit({}, [g])];
    EachEdit(less, f, f);
    NoFileAdded(less, LevelState({f.number}, [f]));
    InsertedNext(less, f, g);
    SavedAs(less, [], LevelState({}, [f, g]), [f, g]);
    hide Saved, ApplyLevel, TotalOrder, Before;
    assert edits[..2][..1] == edits[..1] && edits[..1][..0] == [];
    assert ApplyAll(less, []) == NO_CHANGE;
    assert ApplyAll(less, edits[..1]) == LevelState({}, [f]);
    assert ApplyAll(less, edits[..2]) == LevelState({f.number}, [f]);
  }

  lemma InsertedNext(less: Less, f: Meta, g: Meta)
    requires TotalOrder(less) && Before(less, f, g) && f.number == g.number
    ensures ApplyLevel(less, LevelState({}, [f]), {f.number}, []) == LevelState({f.number}, [f])
    ensures ApplyLevel(less, LevelState({f.number}, [f]), {}, [g]) == LevelState({}, [f, g])
  {
    var last := LevelState({f.number}, [f]);
    NoFileAdded(less, last);
    assert {} + {f.number} == {f.number} && {f.number} + {} == {f.number} && {f.number} - {g.number} == {};
    assert [g][..0] == [];
    assert InsertFile(less, [f], g) == [f] + InsertFile(less, [], g);
    assert AddFiles(less, last, [g]) == LevelState({}, [f, g]);
  }
}
