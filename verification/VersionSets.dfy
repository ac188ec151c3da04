/** The version set: logging edits to the manifest, and replaying them when the database is opened. */
module VersionSets {
  import opened Options
  import opened Coding
  import opened VersionEdits
  import opened Manifests

  type Levels = seq<seq<Meta>>

  // ------------------------------------------------------------------ an edit, level by level

  function DeletesAt(ds: seq<Deleted>, level: nat): set<nat> {
    if ds == [] then {}
    else DeletesAt(ds[..|ds| - 1], level) + if ds[|ds| - 1].level == level then {ds[|ds| - 1].number} else {}
  }

  function AddsAt(ns: seq<New>, level: nat): seq<Meta> {
    if ns == [] then []
    else AddsAt(ns[..|ns| - 1], level) + if ns[|ns| - 1].level == level then [ns[|ns| - 1].file] else []
  }

  function AtLevel(e: Edit, level: nat): LevelEdit {
    LevelEdit(DeletesAt(e.deleted, level), AddsAt(e.added, level))
  }

  function AllAtLevel(es: seq<Edit>, level: nat): (r: seq<LevelEdit>)
    ensures |r| == |es|
  {
    seq(|es|, i requires 0 <= i < |es| => AtLevel(es[i], level))
  }

  predicate LevelsFit(e: Edit) {
    && (forall d :: d in e.deleted ==> d.level < NUM_LEVELS)
    && (forall n :: n in e.added ==> n.level < NUM_LEVELS)
    && (forall p :: p in e.pointers ==> p.level < NUM_LEVELS)
  }

  class Builder {
    const less: Less
    const base: Levels
    var levels: seq<LevelState>

    constructor (less: Less, base: Levels)
      requires |base| == NUM_LEVELS
      ensures this.less == less && this.base == base && |levels| == NUM_LEVELS
      ensures forall l :: 0 <= l < NUM_LEVELS ==> levels[l] == NO_CHANGE
    {
      this.less, this.base := less, base;
      levels := seq(NUM_LEVELS, _ => NO_CHANGE);
    }

    method Apply(e: Edit)
      requires |levels| == NUM_LEVELS && LevelsFit(e)
      modifies this
      ensures |levels| == NUM_LEVELS
      ensures forall l :: 0 <= l < NUM_LEVELS ==>
                levels[l] == ApplyLevel(less, old(levels)[l], AtLevel(e, l).deletes, AtLevel(e, l).adds)
    {
      DeleteFiles(e.deleted);
      NewFiles(e.added);
    }

    method DeleteFiles(deleted: seq<Deleted>)
      requires |levels| == NUM_LEVELS && forall d :: d in deleted ==> d.level < NUM_LEVELS
      modifies this
      ensures |levels| == NUM_LEVELS
      ensures forall l :: 0 <= l < NUM_LEVELS ==>
                levels[l] == old(levels)[l].(deleted := old(levels)[l].deleted + DeletesAt(deleted, l))
    {
      ghost var start := levels;
      assert forall l :: 0 <= l < NUM_LEVELS ==>
               start[l] == start[l].(deleted := start[l].deleted + DeletesAt(deleted[..0], l));
      for i := 0 to |deleted|
        invariant |levels| == NUM_LEVELS
        invariant forall l :: 0 <= l < NUM_LEVELS ==>
                    levels[l] == start[l].(deleted := start[l].deleted + DeletesAt(deleted[..i], l))
      {
        var d := deleted[i];
        DeletesNext(deleted, i);
        hide DeletesAt;
        var st := levels[d.level];
        levels := levels[d.level := st.(deleted := st.deleted + {d.number})];
      }
      assert deleted[..|deleted|] == deleted;
    }

    static lemma DeletesNext(ds: seq<Deleted>, i: nat)
      requires i < |ds|
      ensures forall l: nat :: DeletesAt(ds[..i + 1], l) == DeletesAt(ds[..i], l) + if ds[i].level == l
                               then {ds[i].number} else {}
    {
      assert ds[..i + 1][..i] == ds[..i];
    }

    method NewFiles(added: seq<New>)
      requires |levels| == NUM_LEVELS && forall n :: n in added ==> n.level < NUM_LEVELS
      modifies this
      ensures |levels| == NUM_LEVELS
      ensures forall l :: 0 <= l < NUM_LEVELS ==> levels[l] == AddFiles(less, old(levels)[l], AddsAt(added, l))
    {
      ghost var start := levels;
      assert forall l :: 0 <= l < NUM_LEVELS ==> start[l] == AddFiles(less, start[l], AddsAt(added[..0], l));
      hide AddFiles, InsertFile;
      for i := 0 to |added|
        invariant |levels| == NUM_LEVELS
        invariant forall l :: 0 <= l < NUM_LEVELS ==> levels[l] == AddFiles(less, start[l], AddsAt(added[..i], l))
      {
        AddsNext(added, i);
        hide AddsAt;
        var n := added[i];
        var st := levels[n.level];
        AddFilesNext(start[n.level], AddsAt(added[..i], n.level), n.file);
        levels := levels[n.level := LevelState(st.deleted - {n.file.number}, InsertFile(less, st.added, n.file))];
      }
      assert added[..|added|] == added;
    }

    lemma AddFilesNext(st: LevelState, adds: seq<Meta>, f: Meta)
      ensures AddFiles(less, st, adds + [f]) ==
              var before := AddFiles(less, st, adds);
              LevelState(before.deleted - {f.number}, InsertFile(less, before.added, f))
    {
      assert (adds + [f])[..|adds|] == adds;
    }

    static lemma AddsNext(ns: seq<New>, i: nat)
      requires i < |ns|
      ensures forall l: nat :: AddsAt(ns[..i + 1], l) == if ns[i].level == l then AddsAt(ns[..i], l) + [ns[i].file]
                               else AddsAt(ns[..i], l)
    {
      assert ns[..i + 1][..i] == ns[..i];
    }

    /** Files of the base are copied up to each added file in turn; deleted ones are left out. */
    method SaveLevel(l: nat) returns (files: seq<Meta>)
      requires |base| == |levels| == NUM_LEVELS && l < NUM_LEVELS
      ensures files == Saved(less, base[l], levels[l])
    {
      hide Merged, Remaining;
      var st := levels[l];
      var iter := 0;
      files := [];
      ghost var merged: seq<Meta> := [];
      assert Remaining([], st.deleted) == [] by { NothingRemains(st.deleted); }
      for i := 0 to |st.added|
        invariant iter <= |base[l]| && files == Remaining(merged, st.deleted)
        invariant merged + Merged(less, base[l], iter, st.added[i..]) == Merged(less, base[l], 0, st.added)
      {
        var n := UpperBound(less, base[l], iter, st.added[i]);
        MergedNext(base[l], iter, st.added, i);
        ghost var after := merged + base[l][iter..n];
        files := MaybeAddAll(files, base[l][iter..n], st.deleted, merged);
        files := MaybeAddAll(files, [st.added[i]], st.deleted, after);
        ghost var rest := Merged(less, base[l], n, st.added[i + 1..]);
        assert merged + (base[l][iter..n] + [st.added[i]] + rest) == after + [st.added[i]] + rest;
        merged := after + [st.added[i]];
        iter := n;
      }
      MergedEnd(base[l], iter, st.added);
      files := MaybeAddAll(files, base[l][iter..], st.deleted, merged);
    }

    static lemma NothingRemains(deleted: set<nat>)
      ensures Remaining([], deleted) == []
    {
    }

    lemma MergedNext(base: seq<Meta>, iter: nat, added: seq<Meta>, i: nat)
      requires iter <= |base| && i < |added|
      ensures var n := UpperBound(less, base, iter, added[i]);
              Merged(less, base, iter, added[i..]) == base[iter..n] + [added[i]] + Merged(less, base, n, added[i + 1..])
    {
      assert added[i..][1..] == added[i + 1..];
    }

    lemma MergedEnd(base: seq<Meta>, iter: nat, added: seq<Meta>)
      requires iter <= |base|
      ensures Merged(less, base, iter, added[|added|..]) == base[iter..]
    {
    }

    method MaybeAddAll(files: seq<Meta>, more: seq<Meta>, deleted: set<nat>, ghost before: seq<Meta>)
        returns (r: seq<Meta>)
      requires files == Remaining(before, deleted)
      ensures r == Remaining(before + more, deleted)
    {
      r := files;
      assert before + more[..0] == before;
      for i := 0 to |more|
        invariant r == Remaining(before + more[..i], deleted)
      {
        assert before + more[..i + 1] == (before + more[..i]) + [more[i]];
        assert ((before + more[..i]) + [more[i]])[..|before| + i] == before + more[..i];
        if more[i].number !in deleted {
          r := r + [more[i]];
        }
      }
      assert more[..|more|] == more;
    }

    method SaveTo() returns (v: Levels)
      requires |base| == |levels| == NUM_LEVELS
      ensures |v| == NUM_LEVELS && forall l :: 0 <= l < NUM_LEVELS ==> v[l] == Saved(less, base[l], levels[l])
    {
      hide Saved;
      v := [];
      for l := 0 to NUM_LEVELS
        invariant |v| == l && forall k :: 0 <= k < l ==> v[k] == Saved(less, base[k], levels[k])
      {
        var files := SaveLevel(l);
        v := v + [files];
      }
    }
  }

  // ------------------------------------------------------------------ the counters

  /** The last value given for a counter. */
  function LastGiven(es: seq<Edit>, pick: Edit -> Option<nat>): Option<nat> {
    if es == [] then None
    else if pick(es[|es| - 1]).Some? then pick(es[|es| - 1])
    else LastGiven(es[..|es| - 1], pick)
  }

  const LOG_OF: Edit -> Option<nat> := (e: Edit) => e.logNumber
  const PREV_LOG_OF: Edit -> Option<nat> := (e: Edit) => e.prevLogNumber
  const NEXT_FILE_OF: Edit -> Option<nat> := (e: Edit) => e.nextFile
  const LAST_SEQUENCE_OF: Edit -> Option<nat> := (e: Edit) => e.lastSequence

  // ------------------------------------------------------------------ recovery

  datatype Recovered = Recovered(files: Levels, logNumber: nat, prevLogNumber: nat, nextFile: nat, lastSequence: nat)

  /** The edits in a manifest, if every record is well formed and names the right comparator. */
  function EditsIn(records: seq<Bytes>, comparator: Bytes): Option<seq<Edit>> {
    if records == [] then Some([])
    else
      match EditsIn(records[..|records| - 1], comparator)
      case None => None
      case Some(es) =>
        match Decode(records[|records| - 1], EMPTY_EDIT)
        case None => None
        case Some(e) => if e.comparator.Some? && e.comparator.value != comparator then None else Some(es + [e])
  }

  function NoFiles(): (v: Levels)
    ensures |v| == NUM_LEVELS && forall l :: 0 <= l < NUM_LEVELS ==> v[l] == []
  {
    seq(NUM_LEVELS, _ => [])
  }

  /** What replaying these edits from nothing gives; the counters must all have been given. */
  ghost predicate Replays(less: Less, es: seq<Edit>, r: Option<Recovered>) {
    var next, log, last := LastGiven(es, NEXT_FILE_OF), LastGiven(es, LOG_OF), LastGiven(es, LAST_SEQUENCE_OF);
    if next.None? || log.None? || last.None? then r == None
    else
      && r.Some? && |r.value.files| == NUM_LEVELS
      && (forall l :: 0 <= l < NUM_LEVELS ==> r.value.files[l] == Saved(less, [], ApplyAll(less, AllAtLevel(es, l))))
      && r.value.nextFile == next.value && r.value.logNumber == log.value && r.value.lastSequence == last.value
      && r.value.prevLogNumber == (var p := LastGiven(es, PREV_LOG_OF); if p.Some? then p.value else 0)
  }

  lemma {:induction false} DecodedLevelsFit(s: Bytes, e: Edit)
    requires LevelsFit(e)
    ensures Decode(s, e).Some? ==> LevelsFit(Decode(s, e).value)
    decreases |s|
  {
    if s != [] {
      var tag := GetVarint32(s);
      if tag.Some? {
        var field := GetPayload(tag.value.0, tag.value.1);
        if field.Some? {
          FieldLevelsFit(tag.value.0, tag.value.1, e);
          DecodedLevelsFit(field.value.1, ApplyField(e, field.value.0));
        }
      }
    }
  }

  lemma FieldLevelsFit(tag: nat, s: Bytes, e: Edit)
    requires LevelsFit(e) && GetPayload(tag, s).Some?
    ensures LevelsFit(ApplyField(e, GetPayload(tag, s).value.0))
  {
    hide GetVarint32, GetVarint64, GetLengthPrefixed;
    var f := GetPayload(tag, s).value.0;
    if f.DeletedFile? {
      InsertedDeleted(e.deleted, f.deleted);
    }
  }

  lemma {:induction false} InsertedDeleted(s: seq<Deleted>, d: Deleted)
    ensures forall x :: x in InsertDeleted(s, d) ==> x in s || x == d
  {
    if s != [] {
      InsertedDeleted(s[..|s| - 1], d);
    }
  }

  lemma NextEdit(less: Less, es: seq<Edit>, e: Edit)
    ensures forall l: nat :: ApplyAll(less, AllAtLevel(es + [e], l))
                             == ApplyLevel(less, ApplyAll(less, AllAtLevel(es, l)), AtLevel(e, l).deletes,
                               AtLevel(e, l).adds)
    ensures forall pick: Edit -> Option<nat> {:trigger LastGiven(es + [e], pick)} ::
              LastGiven(es + [e], pick) == if pick(e).Some? then pick(e) else LastGiven(es, pick)
  {
    hide ApplyLevel, AtLevel;
    forall l: nat
      ensures ApplyAll(less, AllAtLevel(es + [e], l)) == ApplyLevel(less, ApplyAll(less, AllAtLevel(es, l)),
              AtLevel(e, l).deletes, AtLevel(e, l).adds)
    {
      assert AllAtLevel(es + [e], l)[..|es|] == AllAtLevel(es, l);
    }
    assert (es + [e])[..|es|] == es;
  }

  function Given(new_: Option<nat>, kept: Option<nat>): Option<nat> {
    if new_.Some? then new_ else kept
  }

  lemma EditsNext(records: seq<Bytes>, i: nat, comparator: Bytes)
    requires i < |records|
    ensures EditsIn(records[..i + 1], comparator) ==
            match EditsIn(records[..i], comparator)
            case None => None
            case Some(es) =>
              match Decode(records[i], EMPTY_EDIT)
              case None => None
              case Some(e) => if e.comparator.Some? && e.comparator.value != comparator then None else Some(es + [e])
  {
    assert records[..i + 1][..i] == records[..i];
  }

  lemma {:induction false} BadRecordStays(records: seq<Bytes>, i: nat, comparator: Bytes)
    requires i <= |records| && EditsIn(records[..i], comparator).None?
    ensures EditsIn(records, comparator).None?
    decreases |records| - i
  {
    if i < |records| {
      EditsNext(records, i, comparator);
      BadRecordStays(records, i + 1, comparator);
    } else {
      assert records[..i] == records;
    }
  }

  /** Replays the manifest's records in one builder and takes the last value of every counter. */
  method Recover(records: seq<Bytes>, comparator: Bytes, less: Less) returns (r: Option<Recovered>)
    ensures match EditsIn(records, comparator)
            case None => r == None
            case Some(es) => Replays(less, es, r)
  {
    hide Decode, LastGiven, ApplyAll;
    var builder := new Builder(less, NoFiles());
    var log, prevLog, nextFile, last := None, None, None, None;
    ghost var es: seq<Edit> := [];
    NothingYet(less);
    for i := 0 to |records|
      invariant fresh(builder) && |builder.levels| == NUM_LEVELS && EditsIn(records[..i], comparator) == Some(es)
      invariant builder.less == less && builder.base == NoFiles()
      invariant forall l :: 0 <= l < NUM_LEVELS ==> builder.levels[l] == ApplyAll(less, AllAtLevel(es, l))
      invariant log == LastGiven(es, LOG_OF) && prevLog == LastGiven(es, PREV_LOG_OF)
      invariant nextFile == LastGiven(es, NEXT_FILE_OF) && last == LastGiven(es, LAST_SEQUENCE_OF)
    {
      EditsNext(records, i, comparator);
      var e := DecodeFrom(records[i]);
      if e.None? || (e.value.comparator.Some? && e.value.comparator.value != comparator) {
        BadRecordStays(records, i + 1, comparator);
        return None;
      }
      DecodedLevelsFit(records[i], EMPTY_EDIT);
      NextEdit(less, es, e.value);
      builder.Apply(e.value);
      log, prevLog := Given(e.value.logNumber, log), Given(e.value.prevLogNumber, prevLog);
      nextFile, last := Given(e.value.nextFile, nextFile), Given(e.value.lastSequence, last);
      es := es + [e.value];
    }
    assert records[..|records|] == records;
    if nextFile.None? || log.None? || last.None? {
      return None;
    }
    var files := builder.SaveTo();
    r := Some(Recovered(files, log.value, if prevLog.Some? then prevLog.value else 0, nextFile.value, last.value));
  }

  lemma NothingYet(less: Less)
    ensures forall l: nat :: ApplyAll(less, AllAtLevel([], l)) == NO_CHANGE
    ensures forall pick: Edit -> Option<nat> {:trigger LastGiven([], pick)} :: LastGiven([], pick) == None
  {
  }

  // ------------------------------------------------------------------ what the manifest rebuilds

  /** A manifest: a snapshot of the files there were, then the edits made since. */
  function ManifestOf(es: seq<Edit>): (records: seq<Bytes>)
    ensures |records| == |es|
  {
    seq(|es|, i requires 0 <= i < |es| => Encoding(es[i]))
  }

  lemma {:induction false} ManifestDecodes(es: seq<Edit>, comparator: Bytes)
    requires forall e :: e in es ==> EditFits(e) && (e.comparator.Some? ==> e.comparator.value == comparator)
    ensures EditsIn(ManifestOf(es), comparator) == Some(es)
  {
    hide Encoding, Decode;
    if es != [] {
      var front := es[..|es| - 1];
      ManifestDecodes(front, comparator);
      assert ManifestOf(es)[..|es| - 1] == ManifestOf(front);
      EditRoundTrip(es[|es| - 1]);
      assert es == front + [es[|es| - 1]];
    }
  }

  /** A snapshot adds every file and deletes none. */
  ghost predicate IsSnapshot(e: Edit, files: Levels) {
    && |files| == NUM_LEVELS
    && forall l :: 0 <= l < NUM_LEVELS ==> AtLevel(e, l) == LevelEdit({}, files[l])
  }

  /** As every logged edit does. */
  predicate SetsCounters(e: Edit) {
    e.logNumber.Some? && e.prevLogNumber.Some? && e.nextFile.Some? && e.lastSequence.Some?
  }

  lemma {:induction false} OneByOneFront(less: Less, base: seq<Meta>, first: LevelEdit, rest: seq<LevelEdit>)
    ensures OneByOne(less, base, [first] + rest) == OneByOne(less, OneByOne(less, base, [first]), rest)
  {
    hide Saved;
    var all := [first] + rest;
    if rest == [] {
      assert all == [first];
    } else {
      OneByOneFront(less, base, first, rest[..|rest| - 1]);
      assert all[..|all| - 1] == [first] + rest[..|rest| - 1];
    }
  }

  lemma SnapshotLevel(less: Less, files: seq<Meta>)
    requires TotalOrder(less) && Listed(less, files)
    ensures OneByOne(less, [], [LevelEdit({}, files)]) == files
  {
    var e := LevelEdit({}, files);
    assert [e][..0] == [];
    OneEdit(less, [], e);
    ListingUnique(less, Saved(less, [], ApplyLevel(less, NO_CHANGE, {}, files)), files);
  }

  lemma {:induction false} StageOfFront(files: seq<Meta>, rest: seq<LevelEdit>, n: nat)
    ensures StageOf([], [LevelEdit({}, files)] + rest, n) == StageOf(files, rest, n)
  {
    var first := LevelEdit({}, files);
    var all := [first] + rest;
    if rest == [] {
      assert all[..0] == [] && all[0] == first;
      assert StageOf([], [], n) == Unused;
    } else {
      StageOfFront(files, rest[..|rest| - 1], n);
      assert all[..|all| - 1] == [first] + rest[..|rest| - 1];
    }
  }

  lemma {:induction false} AllAddsFront(first: LevelEdit, rest: seq<LevelEdit>)
    ensures AllAdds([first] + rest) == first.adds + AllAdds(rest)
  {
    var all := [first] + rest;
    if rest == [] {
      assert all[..0] == [];
      assert AllAdds(all) == AllAdds([]) + first.adds;
    } else {
      AllAddsFront(first, rest[..|rest| - 1]);
      assert all[..|all| - 1] == [first] + rest[..|rest| - 1];
    }
  }

  /** Files of a level and all those added to it later differ in smallest key or number. */
  ghost predicate LevelApart(less: Less, files: seq<Meta>, es: seq<LevelEdit>) {
    Listed(less, files) && AllApart(less, [], files + AllAdds(es))
  }

  /** The level after replay is the level the running database had, exactly when no number came back. */
  lemma ReplayedLevel(less: Less, files: seq<Meta>, es: seq<LevelEdit>)
    requires TotalOrder(less) && LevelApart(less, files, es)
    ensures Saved(less, [], ApplyAll(less, [LevelEdit({}, files)] + es)) == OneByOne(less, files, es) <==>
              NoneBack(files, es)
  {
    hide TotalOrder, Listed, AllApart;
    var first := LevelEdit({}, files);
    AllAddsFront(first, es);
    ManyAtOnceIff(less, [], [first] + es);
    OneByOneFront(less, [], first, es);
    SnapshotLevel(less, files);
    SameBack(files, es);
  }

  /** Files under new numbers are told apart, and none comes back. */
  lemma FreshLevel(less: Less, files: seq<Meta>, es: seq<LevelEdit>)
    requires TotalOrder(less) && Listed(less, files) && Fresh([], files + AllAdds(es))
    ensures LevelApart(less, files, es) && NoneBack(files, es)
  {
    FreshApart(less, [], files + AllAdds(es));
    FreshTail(files, AllAdds(es));
    hide TotalOrder, Listed, Fresh, AllApart;
    forall n
      ensures StageOf(files, es, n) != Back
    {
      FreshNeverBack(files, es, n);
    }
  }

  lemma FreshTail(files: seq<Meta>, adds: seq<Meta>)
    requires Fresh([], files + adds)
    ensures Fresh(files, adds)
  {
    var all := files + adds;
    assert forall i :: 0 <= i < |files| ==> all[i] == files[i];
    assert forall j :: 0 <= j < |adds| ==> all[|files| + j] == adds[j];
    forall f, g | f in adds && g in files
      ensures g.number != f.number
    {
      var i :| 0 <= i < |files| && files[i] == g;
      var j :| 0 <= j < |adds| && adds[j] == f;
      assert all[i].number != all[|files| + j].number;
    }
  }

  lemma SameBack(files: seq<Meta>, es: seq<LevelEdit>)
    ensures NoneBack([], [LevelEdit({}, files)] + es) <==> NoneBack(files, es)
  {
    hide NextStage;
    forall n: nat
      ensures StageOf([], [LevelEdit({}, files)] + es, n) == StageOf(files, es, n)
    {
      StageOfFront(files, es, n);
    }
  }

  /** The manifest theorem.  A snapshot and the edits logged after it, encoded and read back and
      replayed in one builder, give the counters as they were when the last edit was logged, and each
      level as applying the edits one after another did, exactly when on that level no number was used
      again after it was taken off. */
  lemma ReplayRebuilds(less: Less, comparator: Bytes, files: Levels, snapshot: Edit, es: seq<Edit>,
      r: Option<Recovered>)
    requires TotalOrder(less) && IsSnapshot(snapshot, files)
    requires forall e :: e in [snapshot] + es ==> EditFits(e)
                                                  && (e.comparator.Some? ==> e.comparator.value == comparator)
    requires es != [] && SetsCounters(es[|es| - 1])
    requires forall l :: 0 <= l < NUM_LEVELS ==> LevelApart(less, files[l], AllAtLevel(es, l))
    requires match EditsIn(ManifestOf([snapshot] + es), comparator)
             case None => r == None
             case Some(read) => Replays(less, read, r)
    ensures r.Some? && |r.value.files| == NUM_LEVELS
    ensures forall l :: 0 <= l < NUM_LEVELS ==>
              (r.value.files[l] == OneByOne(less, files[l], AllAtLevel(es, l)) <==>
                  NoneBack(files[l], AllAtLevel(es, l)))
    ensures var last := es[|es| - 1];
            && r.value.logNumber == last.logNumber.value && r.value.prevLogNumber == last.prevLogNumber.value
            && r.value.nextFile == last.nextFile.value && r.value.lastSequence == last.lastSequence.value
  {
    hide EditFits, IsSnapshot, Saved, ApplyAll, OneByOne, LastGiven, LevelApart, NoneBack, TotalOrder, EditsIn;
    var all := [snapshot] + es;
    ManifestDecodes(all, comparator);
    LastIsGiven(all);
    assert all[|all| - 1] == es[|es| - 1];
    ReplayedLevels(less, files, snapshot, es);
  }

  lemma ReplayedLevels(less: Less, files: Levels, snapshot: Edit, es: seq<Edit>)
    requires TotalOrder(less) && IsSnapshot(snapshot, files)
    requires forall l :: 0 <= l < NUM_LEVELS ==> LevelApart(less, files[l], AllAtLevel(es, l))
    ensures |files| == NUM_LEVELS
    ensures forall l :: 0 <= l < NUM_LEVELS ==>
              (Saved(less, [], ApplyAll(less, AllAtLevel([snapshot] + es, l)))
                == OneByOne(less, files[l], AllAtLevel(es, l))
               <==> NoneBack(files[l], AllAtLevel(es, l)))
  {
    hide TotalOrder, LevelApart, NoneBack, Saved, ApplyAll, OneByOne, AtLevel;
    forall l: nat | l < NUM_LEVELS
      ensures Saved(less, [], ApplyAll(less, AllAtLevel([snapshot] + es, l)))
              == OneByOne(less, files[l], AllAtLevel(es, l))
         <==> NoneBack(files[l], AllAtLevel(es, l))
    {
      FilesAt(snapshot, files, l);
      assert AllAtLevel([snapshot] + es, l) == [AtLevel(snapshot, l)] + AllAtLevel(es, l);
      ReplayedLevel(less, files[l], AllAtLevel(es, l));
    }
  }

  lemma FilesAt(e: Edit, files: Levels, l: nat)
    requires IsSnapshot(e, files) && l < NUM_LEVELS
    ensures AtLevel(e, l) == LevelEdit({}, files[l])
  {
  }

  lemma LastIsGiven(es: seq<Edit>)
    requires es != [] && SetsCounters(es[|es| - 1])
    ensures LastGiven(es, LOG_OF) == es[|es| - 1].logNumber && LastGiven(es, PREV_LOG_OF) == es[|es| - 1].prevLogNumber
    ensures LastGiven(es, NEXT_FILE_OF) == es[|es| - 1].nextFile
            && LastGiven(es, LAST_SEQUENCE_OF) == es[|es| - 1].lastSequence
    ensures LastGiven(es, LOG_OF).Some? && LastGiven(es, NEXT_FILE_OF).Some? && LastGiven(es, LAST_SEQUENCE_OF).Some?
  {
  }

  /** A manifest in which a number is deleted from a level and added again. */
  function ReusingManifest(comparator: Bytes, f: Meta, g: Meta): seq<Edit> {
    [EMPTY_EDIT.(comparator := Some(comparator), added := [New(1, f)]),
     EMPTY_EDIT.(deleted := [Deleted(1, f.number)]),
     EMPTY_EDIT.(logNumber := Some(9), prevLogNumber := Some(0), nextFile := Some(10), lastSequence := Some(100),
       added := [New(1, g)])]
  }

  /** Such a manifest is read without complaint, and the database opens with both files on the level,
      where the edits one after another leave only the second. */
  lemma ReusedNumberOpensBoth(less: Less, comparator: Bytes, f: Meta, g: Meta, r: Option<Recovered>)
    requires TotalOrder(less) && Before(less, f, g) && f.number == g.number
    requires |comparator| < TWO_32 && Fits(NewFile(New(1, f))) && Fits(NewFile(New(1, g)))
    requires match EditsIn(ManifestOf(ReusingManifest(comparator, f, g)), comparator)
             case None => r == None
             case Some(read) => Replays(less, read, r)
    ensures r.Some? && |r.value.files| == NUM_LEVELS && r.value.files[1] == [f, g]
    ensures OneByOne(less, [], AllAtLevel(ReusingManifest(comparator, f, g), 1)) == [g]
  {
    hide ReusingManifest, AllAtLevel, ManifestOf, EditsIn, Saved, OneByOne, ApplyAll, LastGiven, Before, TotalOrder,
         Fits;
    ReusingRead(comparator, f, g);
    ReusingLevel(comparator, f, g);
    NumberReuseInOneBuilder(less, f, g);
    LastOneStays(less, f, g);
  }

  lemma ReusingRead(comparator: Bytes, f: Meta, g: Meta)
    requires |comparator| < TWO_32 && Fits(NewFile(New(1, f))) && Fits(NewFile(New(1, g))) && f.number == g.number
    ensures var es := ReusingManifest(comparator, f, g);
            && EditsIn(ManifestOf(es), comparator) == Some(es)
            && LastGiven(es, LOG_OF).Some? && LastGiven(es, NEXT_FILE_OF).Some? && LastGiven(es, LAST_SEQUENCE_OF).Some?
  {
    hide ManifestOf, EditsIn, EditFits, LastGiven, Fits, ReusingManifest, SetsCounters;
    var es := ReusingManifest(comparator, f, g);
    ReusingFits(comparator, f, g);
    ReusingParts(comparator, f, g);
    ManifestDecodes(es, comparator);
    LastIsGiven(es);
  }

  lemma ReusingParts(comparator: Bytes, f: Meta, g: Meta)
    ensures |ReusingManifest(comparator, f, g)| == 3 && SetsCounters(ReusingManifest(comparator, f, g)[2])
    ensures forall e :: e in ReusingManifest(comparator, f, g) ==>
              e.comparator.Some? ==> e.comparator.value == comparator
  {
  }

  lemma LastOneStays(less: Less, f: Meta, g: Meta)
    requires TotalOrder(less) && Before(less, f, g) && f.number == g.number
    ensures OneByOne(less, [], [LevelEdit({}, [f]), LevelEdit({f.number}, []), LevelEdit({}, [g])]) == [g]
  {
    hide OneByOne, ApplyAll, Saved;
    var rest := [LevelEdit({f.number}, []), LevelEdit({}, [g])];
    OneByOneFront(less, [], LevelEdit({}, [f]), rest);
    SnapshotLevel(less, [f]);
    NumberReuseBringsFileBack(less, f, g);
    assert [LevelEdit({}, [f])] + rest == [LevelEdit({}, [f]), LevelEdit({f.number}, []), LevelEdit({}, [g])];
  }

  lemma ReusingFits(comparator: Bytes, f: Meta, g: Meta)
    requires |comparator| < TWO_32 && Fits(NewFile(New(1, f))) && Fits(NewFile(New(1, g))) && f.number == g.number
    ensures forall e :: e in ReusingManifest(comparator, f, g) ==> EditFits(e)
  {
    var es := ReusingManifest(comparator, f, g);
    FitsByParts(es[0]);
    FitsByParts(es[1]);
    FitsByParts(es[2]);
  }

  predicate CounterFits(n: Option<nat>) {
    n.Some? ==> n.value < TWO_64
  }

  lemma FitsByParts(e: Edit)
    requires e.comparator.Some? ==> |e.comparator.value| < TWO_32
    requires CounterFits(e.logNumber) && CounterFits(e.prevLogNumber) && CounterFits(e.nextFile)
             && CounterFits(e.lastSequence)
    requires e.pointers == [] && |e.deleted| <= 1
    requires (forall d :: d in e.deleted ==> Fits(DeletedFile(d))) && (forall n :: n in e.added ==> Fits(NewFile(n)))
    ensures EditFits(e)
  {
    assert forall f :: f in Scalars(e) ==> Fits(f);
    hide Scalars, CounterFits;
    assert Pointers([]) == [];
    assert forall f :: f in Deletions(e.deleted) ==> f.DeletedFile? && f.deleted in e.deleted;
    assert forall f :: f in Additions(e.added) ==> f.NewFile? && f.file in e.added;
  }

  lemma ReusingLevel(comparator: Bytes, f: Meta, g: Meta)
    ensures AllAtLevel(ReusingManifest(comparator, f, g), 1)
            == [LevelEdit({}, [f]), LevelEdit({f.number}, []), LevelEdit({}, [g])]
  {
    var es := ReusingManifest(comparator, f, g);
    assert DeletesAt([], 1) == {} && AddsAt([], 1) == [];
    assert [New(1, f)][..0] == [] && [New(1, g)][..0] == [] && [Deleted(1, f.number)][..0] == [];
    assert AddsAt([New(1, f)], 1) == [f] && AddsAt([New(1, g)], 1) == [g]
           && DeletesAt([Deleted(1, f.number)], 1) == {f.number};
  }

  // ------------------------------------------------------------------ numbers in use

  /** Every file a level has held since the manifest was begun. */
  function Seen(first: Levels, es: seq<Edit>, l: nat): seq<Meta>
    requires l < |first|
  {
    first[l] + AllAdds(AllAtLevel(es, l))
  }

  ghost predicate NumberSeen(first: Levels, es: seq<Edit>, n: nat) {
    exists l: nat, f :: l < |first| && f in Seen(first, es, l) && f.number == n
  }

  /** A file has not been on a level twice, all numbers were given out, and a file's way is downward. */
  ghost predicate NumbersHold(less: Less, first: Levels, es: seq<Edit>, files: Levels, nextFile: nat) {
    && |first| == |files| == NUM_LEVELS
    && (forall l: nat :: l < NUM_LEVELS ==> Listed(less, files[l]) && Listed(less, first[l])
                                            && Fresh([], Seen(first, es, l)))
    && (forall l: nat, f :: l < NUM_LEVELS && f in Seen(first, es, l) ==> f.number < nextFile)
    && (forall l: nat, f :: l < NUM_LEVELS && f in files[l] ==> f in Seen(first, es, l))
    && (forall k: nat, l: nat, f, g :: k < NUM_LEVELS && l < NUM_LEVELS && f in files[k] && g in Seen(first, es, l)
                                       && f.number == g.number
          ==> l <= k)
  }

  /** The file is on a level above and leaves it. */
  ghost predicate MovesDown(files: Levels, e: Edit, n: New) {
    exists k: nat, f :: k < |files| && k < n.level && f in files[k] && f.number == n.file.number
                        && Deleted(k, f.number) in e.deleted
  }

  ghost predicate AddsNumber(added: seq<New>, n: nat) {
    exists a :: a in added && a.file.number == n
  }

  /** What a flush, a compaction and a trivial move log: files under new numbers, and files moved down. */
  ghost predicate MayLog(first: Levels, es: seq<Edit>, files: Levels, e: Edit, nextFile: nat) {
    && (forall i, j :: 0 <= i < j < |e.added| ==> e.added[i].file.number != e.added[j].file.number)
    && (forall n :: n in e.added ==>
          n.file.number < nextFile && (!NumberSeen(first, es, n.file.number) || MovesDown(files, e, n)))
  }

  lemma {:induction false} AddsAtMembers(ns: seq<New>, l: nat)
    requires forall i, j :: 0 <= i < j < |ns| ==> ns[i].file.number != ns[j].file.number
    ensures forall f :: f in AddsAt(ns, l) <==> New(l, f) in ns
    ensures forall i, j :: 0 <= i < j < |AddsAt(ns, l)| ==> AddsAt(ns, l)[i].number != AddsAt(ns, l)[j].number
  {
    if ns != [] {
      var front := ns[..|ns| - 1];
      AddsAtMembers(front, l);
      assert ns == front + [ns[|ns| - 1]];
      forall f | f in AddsAt(front, l)
        ensures f.number != ns[|ns| - 1].file.number
      {
        var i :| 0 <= i < |front| && front[i] == New(l, f);
        assert ns[i] == front[i];
      }
    }
  }

  lemma {:induction false} DeletesAtMembers(ds: seq<Deleted>, l: nat)
    ensures forall n :: n in DeletesAt(ds, l) <==> Deleted(l, n) in ds
  {
    if ds != [] {
      DeletesAtMembers(ds[..|ds| - 1], l);
    }
  }

  lemma NotOnLevelYet(less: Less, first: Levels, es: seq<Edit>, files: Levels, e: Edit, nextFile: nat, n: New, g: Meta)
    requires NumbersHold(less, first, es, files, nextFile) && MayLog(first, es, files, e, nextFile)
    requires n in e.added && n.level < NUM_LEVELS && g in Seen(first, es, n.level)
    ensures g.number != n.file.number
  {
    hide Seen, Listed, Fresh;
  }

  /** What is added to a level is new to it. */
  lemma AddsAreNew(less: Less, first: Levels, es: seq<Edit>, files: Levels, e: Edit, nextFile: nat, l: nat)
    requires NumbersHold(less, first, es, files, nextFile) && MayLog(first, es, files, e, nextFile) && l < NUM_LEVELS
    ensures Seen(first, es + [e], l) == Seen(first, es, l) + AddsAt(e.added, l)
    ensures Fresh([], Seen(first, es + [e], l)) && Fresh(files[l], AddsAt(e.added, l))
  {
    SeenNext(first, es, e, l);
    var adds, seen := AddsAt(e.added, l), Seen(first, es, l);
    hide AddsAt, Seen, Listed, Fresh;
    AddsAtMembers(e.added, l);
    assert Fresh([], seen);
    forall f, g | f in adds && g in seen
      ensures g.number != f.number
    {
      NotOnLevelYet(less, first, es, files, e, nextFile, New(l, f), g);
    }
    hide MayLog;
    assert forall f :: f in files[l] ==> f in seen;
    hide NumbersHold;
    FreshJoin(seen, adds);
    FreshBeside(files[l], seen, adds);
  }

  lemma SeenNext(first: Levels, es: seq<Edit>, e: Edit, l: nat)
    requires l < |first|
    ensures Seen(first, es + [e], l) == Seen(first, es, l) + AddsAt(e.added, l)
  {
    hide AddsAt, DeletesAt;
    assert AllAtLevel(es + [e], l)[..|es|] == AllAtLevel(es, l);
  }

  lemma FreshBeside(files: seq<Meta>, seen: seq<Meta>, adds: seq<Meta>)
    requires (forall f :: f in files ==> f in seen) && forall f, g :: f in adds && g in seen ==> g.number != f.number
    requires forall i, j :: 0 <= i < j < |adds| ==> adds[i].number != adds[j].number
    ensures Fresh(files, adds)
  {
  }

  lemma FreshJoin(seen: seq<Meta>, adds: seq<Meta>)
    requires Fresh([], seen) && forall f, g :: f in adds && g in seen ==> g.number != f.number
    requires forall i, j :: 0 <= i < j < |adds| ==> adds[i].number != adds[j].number
    ensures Fresh([], seen + adds)
  {
  }

  lemma LevelAfter(less: Less, first: Levels, es: seq<Edit>, files: Levels, e: Edit, nextFile: nat, l: nat,
      after: seq<Meta>)
    requires TotalOrder(less) && l < NUM_LEVELS
    requires NumbersHold(less, first, es, files, nextFile) && MayLog(first, es, files, e, nextFile)
    requires after == Saved(less, files[l], ApplyLevel(less, NO_CHANGE, AtLevel(e, l).deletes, AtLevel(e, l).adds))
    ensures Listed(less, after)
    ensures forall f :: f in after ==> New(l, f) in e.added
                                       || (f in files[l] && (Deleted(l, f.number) in e.deleted ==> exists n ::
                                            n in e.added && n.level == l && n.file.number == f.number))
  {
    AddsAreNew(less, first, es, files, e, nextFile, l);
    AddsAtMembers(e.added, l);
    DeletesAtMembers(e.deleted, l);
    NumbersOf(e, l);
    assert Listed(less, files[l]);
    hide NumbersHold, MayLog, Listed, AddsAt, DeletesAt, Fresh, Saved, ApplyLevel, Seen, HasNumber;
    FreshApart(less, files[l], AtLevel(e, l).adds);
    OneEdit(less, files[l], AtLevel(e, l));
  }

  lemma NumbersOf(e: Edit, l: nat)
    requires forall i, j :: 0 <= i < j < |e.added| ==> e.added[i].file.number != e.added[j].file.number
    ensures forall n :: HasNumber(AddsAt(e.added, l), n) ==> exists a ::
              a in e.added && a.level == l && a.file.number == n
  {
    AddsAtMembers(e.added, l);
    forall n | HasNumber(AddsAt(e.added, l), n)
      ensures exists a :: a in e.added && a.level == l && a.file.number == n
    {
      NumberMembers(AddsAt(e.added, l), n);
      var f :| f in AddsAt(e.added, l) && f.number == n;
      assert New(l, f) in e.added;
    }
  }

  /** A file that is on a level now has only been above it before. */
  lemma StillDownward(less: Less, first: Levels, es: seq<Edit>, files: Levels, e: Edit, nextFile: nat, k: nat, l: nat,
      f: Meta, g: Meta)
    requires k < NUM_LEVELS && l < NUM_LEVELS && f.number == g.number
    requires NumbersHold(less, first, es, files, nextFile) && MayLog(first, es, files, e, nextFile)
    requires New(k, f) in e.added
             || (f in files[k] && (Deleted(k, f.number) in e.deleted ==> exists n ::
                  n in e.added && n.level == k && n.file.number == f.number))
    requires g in Seen(first, es, l) || New(l, g) in e.added
    ensures l <= k
  {
    hide Seen, Listed, Fresh;
    if New(k, f) in e.added {
      if New(l, g) !in e.added {
        assert NumberSeen(first, es, f.number) && MovesDown(files, e, New(k, f));
      }
    } else if New(l, g) in e.added {
      assert false;
    }
  }

  /** Logging such an edit keeps every file on its way down, and never on a level twice. */
  lemma NumbersStillHold(less: Less, first: Levels, es: seq<Edit>, files: Levels, e: Edit, files': Levels,
      nextFile: nat)
    requires TotalOrder(less) && |files'| == NUM_LEVELS && LevelsFit(e)
    requires NumbersHold(less, first, es, files, nextFile) && MayLog(first, es, files, e, nextFile)
    requires forall l :: 0 <= l < NUM_LEVELS ==>
               files'[l] == Saved(less, files[l],
                 ApplyLevel(less, NO_CHANGE, AtLevel(e, l).deletes, AtLevel(e, l).adds))
    ensures NumbersHold(less, first, es + [e], files', nextFile)
  {
    forall l: nat | l < NUM_LEVELS
      ensures Listed(less, files'[l]) && Fresh([], Seen(first, es + [e], l))
      ensures forall f :: f in Seen(first, es + [e], l) <==> f in Seen(first, es, l) || New(l, f) in e.added
      ensures forall f :: f in files'[l] ==> New(l, f) in e.added
                                             || (f in files[l] && (Deleted(l, f.number) in e.deleted ==> exists n ::
                                                  n in e.added && n.level == l && n.file.number == f.number))
    {
      AddsAreNew(less, first, es, files, e, nextFile, l);
      AddsAtMembers(e.added, l);
      LevelAfter(less, first, es, files, e, nextFile, l, files'[l]);
    }
    hide Saved, ApplyLevel, AtLevel, Seen, Listed, Fresh, LevelsFit, TotalOrder;
    forall k: nat, l: nat, f, g | k < NUM_LEVELS && l < NUM_LEVELS && f in files'[k] && g in Seen(first, es + [e], l)
           && f.number == g.number
      ensures l <= k
    {
      StillDownward(less, first, es, files, e, nextFile, k, l, f, g);
    }
  }

  /** A new manifest starts from the files there are. */
  lemma StartsAnew(less: Less, first: Levels, es: seq<Edit>, files: Levels, nextFile: nat)
    requires TotalOrder(less) && NumbersHold(less, first, es, files, nextFile)
    ensures NumbersHold(less, files, [], files, nextFile)
    ensures forall n :: NumberSeen(files, [], n) ==> NumberSeen(first, es, n)
  {
    forall l: nat | l < NUM_LEVELS
      ensures Seen(files, [], l) == files[l] && Fresh([], files[l])
    {
      assert AllAtLevel([], l) == [] && files[l] + [] == files[l];
      assert forall f :: f in files[l] ==> f in Seen(first, es, l);
      assert Listed(less, files[l]) && Fresh([], Seen(first, es, l));
      hide Seen, NumbersHold;
      StillFresh(less, Seen(first, es, l), files[l]);
    }
    hide Seen, Listed, Fresh;
  }

  lemma StillFresh(less: Less, seen: seq<Meta>, files: seq<Meta>)
    requires TotalOrder(less) && Fresh([], seen) && Listed(less, files) && forall f :: f in files ==> f in seen
    ensures Fresh([], files)
  {
    forall i, j | 0 <= i < j < |files|
      ensures files[i].number != files[j].number
    {
      assert files[i] in files && files[j] in files;
      var a :| 0 <= a < |seen| && seen[a] == files[i];
      var b :| 0 <= b < |seen| && seen[b] == files[j];
      assert Before(less, files[i], files[j]);
    }
  }

  /** Only the numbers of the files an edit adds are seen anew. */
  lemma SeenGrows(first: Levels, es: seq<Edit>, files: Levels, e: Edit, nextFile: nat)
    requires MayLog(first, es, files, e, nextFile)
    ensures forall n :: NumberSeen(first, es + [e], n) ==> NumberSeen(first, es, n) || AddsNumber(e.added, n)
  {
    forall l: nat | l < |first|
      ensures Seen(first, es + [e], l) == Seen(first, es, l) + AddsAt(e.added, l)
      ensures forall f :: f in AddsAt(e.added, l) ==> New(l, f) in e.added
    {
      AddsAtMembers(e.added, l);
      assert AllAtLevel(es + [e], l)[..|es|] == AllAtLevel(es, l);
    }
    hide Seen, AddsAt;
  }

  // ------------------------------------------------------------------ the running version set

  /** How writing a record to the manifest ends; after a failure it may be there all the same. */
  datatype Outcome = Arrived | Failed(reached: bool)

  ghost predicate AfterEdit(less: Less, before: Levels, e: Edit, after: Levels) {
    && |before| == |after| == NUM_LEVELS
    && forall l :: 0 <= l < NUM_LEVELS ==>
         after[l] == Saved(less, before[l], ApplyLevel(less, NO_CHANGE, AtLevel(e, l).deletes, AtLevel(e, l).adds))
  }

  lemma MoreNumbers(less: Less, first: Levels, es: seq<Edit>, files: Levels, nextFile: nat, more: nat)
    requires NumbersHold(less, first, es, files, nextFile) && nextFile <= more
    ensures NumbersHold(less, first, es, files, more)
  {
    hide Seen, Listed, Fresh;
  }

  class VersionSet {
    const less: Less
    const comparator: Bytes
    var files: Levels
    var logNumber: nat
    var prevLogNumber: nat
    var nextFile: nat
    var lastSequence: nat
    /** The records of the manifest in use; none before the first edit is logged. */
    var manifest: seq<Bytes>
    /** What the manifest started from, and the edits it holds. */
    ghost var first: Levels
    ghost var snapshot: Edit
    ghost var edits: seq<Edit>

    /** The files that opening the database from this manifest would give. */
    ghost var manifestFiles: Levels

    /** The files are what the edits make of the first ones, and keep to their numbers. */
    ghost predicate Follows(files: Levels, nextFile: nat)
      reads this`first, this`snapshot, this`edits
    {
      && |files| == |first| == NUM_LEVELS && TotalOrder(less) && NumbersHold(less, first, edits, files, nextFile)
      && (forall l :: 0 <= l < NUM_LEVELS ==> files[l] == OneByOne(less, first[l], AllAtLevel(edits, l)))
      && IsSnapshot(snapshot, first) && snapshot.comparator == Some(comparator)
    }

    /** The manifest can be read, and its files keep to their numbers. */
    ghost predicate Sound()
      reads this
    {
      && Follows(manifestFiles, nextFile)
      && (manifest == [] ==> edits == [])
      && (manifest != [] ==>
            && manifest == ManifestOf([snapshot] + edits) && edits != []
            && SetsCounters(edits[|edits| - 1])
            && NumbersHold(less, first, edits, manifestFiles, edits[|edits| - 1].nextFile.value))
    }

    /** The manifest says how the current files came about and where the log stands. */
    ghost predicate Valid()
      reads this
    {
      && Sound() && files == manifestFiles
      && (manifest != [] ==>
            var last := edits[|edits| - 1]; last.logNumber.value == logNumber
                                            && last.prevLogNumber.value == prevLogNumber)
    }

    /** A version set whose files were recovered, about to start a new manifest. */
    constructor (less: Less, comparator: Bytes, files: Levels, logNumber: nat, prevLogNumber: nat, nextFile: nat,
        lastSequence: nat,
                 ghost snapshot: Edit)
      requires TotalOrder(less) && |files| == NUM_LEVELS && NumbersHold(less, files, [], files, nextFile)
      requires IsSnapshot(snapshot, files) && snapshot.comparator == Some(comparator)
      ensures Valid() && this.files == files && manifest == []
    {
      this.less, this.comparator, this.files := less, comparator, files;
      this.logNumber, this.prevLogNumber, this.nextFile, this.lastSequence := logNumber, prevLogNumber, nextFile,
        lastSequence;
      manifest := [];
      first, edits, this.snapshot, manifestFiles := files, [], snapshot, files;
    }

    /** A number no file of the manifest has had. */
    method NewFileNumber() returns (n: nat)
      requires Valid()
      modifies this`nextFile
      ensures Valid() && n == old(nextFile) && nextFile == n + 1 && !NumberSeen(first, edits, n)
    {
      hide ManifestOf, Follows, NumberSeen, NumbersHold;
      n := nextFile;
      StillFollows(manifestFiles, n, n + 1);
      NextIsUnseen();
      nextFile := nextFile + 1;
    }

    /** Takes back the last number given out, if it was that one and was not used. */
    method ReuseFileNumber(n: nat)
      requires Valid() && !NumberSeen(first, edits, n)
      modifies this`nextFile
      ensures Valid() && nextFile == if old(nextFile) == n + 1 then n else old(nextFile)
    {
      hide IsSnapshot, OneByOne, ManifestOf, TotalOrder, Listed, Fresh, Seen;
      if nextFile == n + 1 {
        nextFile := n;
      }
    }

    /** Every file of the current version, level by level. */
    method WriteSnapshot() returns (e: Edit)
      requires |files| == NUM_LEVELS
      ensures IsSnapshot(e, files) && e.comparator == Some(comparator) && e.deleted == []
    {
      var added: seq<New> := [];
      for l := 0 to NUM_LEVELS
        invariant forall k: nat :: k < NUM_LEVELS ==> AddsAt(added, k) == if k < l then files[k] else []
      {
        added := AddLevel(added, l, files[l]);
      }
      e := EMPTY_EDIT.(comparator := Some(comparator), added := added);
    }

    static method AddLevel(added: seq<New>, l: nat, fs: seq<Meta>) returns (more: seq<New>)
      ensures forall k: nat :: AddsAt(more, k) == if k == l then AddsAt(added, k) + fs else AddsAt(added, k)
    {
      hide AddsAt;
      more := added;
      for i := 0 to |fs|
        invariant forall k: nat :: AddsAt(more, k) == if k == l then AddsAt(added, k) + fs[..i] else AddsAt(added, k)
      {
        ghost var longer := more + [New(l, fs[i])];
        Builder.AddsNext(longer, |more|);
        assert longer[..|more|] == more && longer[..|more| + 1] == longer;
        assert AddsAt(added, l) + fs[..i + 1] == AddsAt(added, l) + fs[..i] + [fs[i]];
        more := more + [New(l, fs[i])];
      }
      assert fs[..|fs|] == fs;
    }

    /** Fills in the counters, applies the edit to the current files, logs it (after a snapshot if the
        manifest is new), and installs the result.  While the manifest is written other threads may
        take file numbers and write on.  If that fails nothing is installed: a new manifest is thrown
        away, and in an old one the record may or may not have arrived. */
    method LogAndApply(edit: Edit, outcome: Outcome, taken: nat, sequence: nat) returns (ok: bool)
      requires Valid() && LevelsFit(edit) && MayLog(first, edits, files, edit, nextFile) && lastSequence <= sequence
      requires edit.logNumber.Some? ==> logNumber <= edit.logNumber.value < nextFile
      modifies this
      ensures ok == outcome.Arrived? && Sound() && nextFile == old(nextFile) + taken && lastSequence == sequence
      ensures ok ==> Valid() && AfterEdit(less, old(files), edit, files)
      ensures ok ==> logNumber == if edit.logNumber.Some? then edit.logNumber.value else old(logNumber)
      ensures ok ==> prevLogNumber == if edit.prevLogNumber.Some? then edit.prevLogNumber.value else old(prevLogNumber)
      ensures !ok ==> files == old(files) && logNumber == old(logNumber) && prevLogNumber == old(prevLogNumber)
      ensures !ok && (old(manifest) == [] || !outcome.reached) ==> Valid() && manifest == old(manifest)
      ensures !ok && !Valid() ==> AfterEdit(less, old(files), edit, manifestFiles)
      ensures ok || !Valid() ==>
                && manifest != [] && first == (if old(manifest) == [] then old(files) else old(first))
                && var last := edits[|edits| - 1];
                && last.nextFile == Some(old(nextFile)) && last.lastSequence == Some(old(lastSequence))
                && edits == (if old(manifest) == [] then [] else old(edits)) + [last]
      ensures forall n :: NumberSeen(first, edits, n) ==> old(NumberSeen(first, edits, n)) || AddsNumber(edit.added, n)
    {
      hide AfterEdit, IsSnapshot, ManifestOf, LevelsFit, NumbersHold, NumberSeen, TotalOrder, OneByOne, AllAtLevel,
           MayLog, Follows, AddsNumber;
      HasLevels();
      var e := Prepare(edit);
      var v := ApplyOnce(e);
      SameAfterEdit(less, files, edit, e, v);
      StillMayLog(first, edits, first, edits, files, edit, e, nextFile);
      WriteManifest(e, v, outcome);
      StillFollows(manifestFiles, nextFile, nextFile + taken);
      nextFile, lastSequence := nextFile + taken, sequence;
      ok := outcome.Arrived?;
      if ok {
        files := v;
        logNumber, prevLogNumber := e.logNumber.value, e.prevLogNumber.value;
      }
    }

    /** Starts the manifest if there is none, and adds the record. */
    method WriteManifest(e: Edit, ghost v: Levels, outcome: Outcome)
      requires Sound() && files == manifestFiles && LevelsFit(e) && SetsCounters(e) && e.nextFile == Some(nextFile)
      requires MayLog(first, edits, files, e, nextFile) && AfterEdit(less, files, e, v)
      modifies this`manifest, this`first, this`snapshot, this`edits, this`manifestFiles
      ensures Sound() && first == if old(manifest) == [] then files else old(first)
      ensures var before := if old(manifest) == [] then [] else old(edits);
              if outcome.Failed? && (old(manifest) == [] || !outcome.reached)
              then manifest == old(manifest) && manifestFiles == files && edits == before
              else manifest != [] && manifestFiles == v && edits == before + [e]
      ensures forall n :: NumberSeen(first, edits, n) ==> old(NumberSeen(first, edits, n)) || AddsNumber(e.added, n)
    {
      hide AfterEdit, IsSnapshot, ManifestOf, LevelsFit, NumbersHold, NumberSeen, TotalOrder, OneByOne, AllAtLevel,
           MayLog, Follows, AddsNumber;
      var newManifest := manifest == [];
      if newManifest {
        StartManifest();
      }
      if outcome.Failed? && (newManifest || !outcome.reached) {
        if newManifest {
          manifest := [];
        }
      } else {
        StillMayLog(old(first), old(edits), first, edits, files, e, e, nextFile);
        SeenGrows(first, edits, files, e, nextFile);
        AppendRecord(e, v);
      }
    }

    /** One more record in the manifest, and what it makes of the files. */
    method AppendRecord(e: Edit, ghost v: Levels)
      requires Follows(files, nextFile) && manifest == ManifestOf([snapshot] + edits)
      requires LevelsFit(e) && SetsCounters(e) && e.nextFile == Some(nextFile)
               && MayLog(first, edits, files, e, nextFile)
      requires AfterEdit(less, files, e, v)
      modifies this`manifest, this`edits, this`manifestFiles
      ensures Sound() && manifest != [] && edits == old(edits) + [e] && manifestFiles == v
    {
      hide Saved, ApplyLevel, AtLevel, Encoding, IsSnapshot, OneByOne, ManifestOf, LevelsFit, NumbersHold, NumberSeen,
           TotalOrder, MayLog;
      var record := EncodeTo(e);
      NumbersStillHold(less, first, edits, files, e, v, nextFile);
      OneMoreEdit(less, first, files, edits, e);
      ManifestNext(snapshot, edits, e);
      manifest := manifest + [record];
      edits, manifestFiles := edits + [e], v;
    }

    lemma HasLevels()
      requires Follows(files, nextFile)
      ensures |files| == |first| == NUM_LEVELS
    {
    }

    lemma NextIsUnseen()
      requires Follows(manifestFiles, nextFile)
      ensures !NumberSeen(first, edits, nextFile)
    {
      hide IsSnapshot, OneByOne, AllAtLevel, TotalOrder, Listed, Fresh, Seen;
    }

    lemma StillFollows(files: Levels, nextFile: nat, more: nat)
      requires Follows(files, nextFile) && nextFile <= more
      ensures Follows(files, more)
    {
      hide IsSnapshot, OneByOne, AllAtLevel, NumbersHold, TotalOrder;
      MoreNumbers(less, first, edits, files, nextFile, more);
    }

    static lemma StillMayLog(first: Levels, es: seq<Edit>, first': Levels, es': seq<Edit>, files: Levels, edit: Edit,
                             e: Edit, nextFile: nat)
      requires MayLog(first, es, files, edit, nextFile) && e.added == edit.added && e.deleted == edit.deleted
      requires forall n :: NumberSeen(first', es', n) ==> NumberSeen(first, es, n)
      ensures MayLog(first', es', files, e, nextFile)
    {
      hide NumberSeen;
    }

    static lemma SameAfterEdit(less: Less, before: Levels, a: Edit, b: Edit, after: Levels)
      requires a.deleted == b.deleted && a.added == b.added
      ensures AfterEdit(less, before, a, after) <==> AfterEdit(less, before, b, after)
    {
      SameLevels(a, b);
      hide AtLevel, Saved, ApplyLevel;
    }

    /** The current files after one edit. */
    method ApplyOnce(e: Edit) returns (v: Levels)
      requires |files| == NUM_LEVELS && LevelsFit(e)
      ensures AfterEdit(less, files, e, v)
    {
      hide Saved, ApplyLevel, AtLevel, LevelsFit;
      var builder := new Builder(less, files);
      builder.Apply(e);
      v := builder.SaveTo();
    }

    /** The edit with every counter set. */
    method Prepare(edit: Edit) returns (e: Edit)
      requires LevelsFit(edit)
      ensures LevelsFit(e) && SetsCounters(e) && e.deleted == edit.deleted && e.added == edit.added
      ensures e.nextFile == Some(nextFile) && e.lastSequence == Some(lastSequence)
      ensures e.logNumber == if edit.logNumber.Some? then edit.logNumber else Some(logNumber)
      ensures e.prevLogNumber == if edit.prevLogNumber.Some? then edit.prevLogNumber else Some(prevLogNumber)
    {
      e := edit;
      if e.logNumber.None? {
        e := e.(logNumber := Some(logNumber));
      }
      if e.prevLogNumber.None? {
        e := e.(prevLogNumber := Some(prevLogNumber));
      }
      e := e.(nextFile := Some(nextFile), lastSequence := Some(lastSequence));
    }

    /** A new manifest begins with a snapshot of the current files. */
    method StartManifest()
      requires Follows(files, nextFile)
      modifies this`manifest, this`first, this`snapshot, this`edits
      ensures manifest == ManifestOf([snapshot] + edits) && edits == [] && first == files
      ensures Follows(files, nextFile)
      ensures forall n :: NumberSeen(first, edits, n) ==> old(NumberSeen(first, edits, n))
    {
      hide IsSnapshot, Encoding, NumbersHold, NumberSeen, TotalOrder;
      StartsAnew(less, first, edits, files, nextFile);
      var s := WriteSnapshot();
      var record := EncodeTo(s);
      manifest := [record];
      first, snapshot, edits := files, s, [];
    }

    static lemma SameLevels(a: Edit, b: Edit)
      requires a.deleted == b.deleted && a.added == b.added
      ensures forall l: nat :: AtLevel(a, l) == AtLevel(b, l)
    {
    }

    static lemma ManifestNext(s: Edit, es: seq<Edit>, e: Edit)
      ensures ManifestOf([s] + (es + [e])) == ManifestOf([s] + es) + [Encoding(e)]
    {
      hide Encoding;
    }

    static lemma OneMoreEdit(less: Less, first: Levels, files: Levels, es: seq<Edit>, e: Edit)
      requires |first| == |files| == NUM_LEVELS
      requires forall l :: 0 <= l < NUM_LEVELS ==> files[l] == OneByOne(less, first[l], AllAtLevel(es, l))
      ensures forall l :: 0 <= l < NUM_LEVELS ==>
                OneByOne(less, first[l], AllAtLevel(es + [e], l))
                  == Saved(less, files[l], ApplyLevel(less, NO_CHANGE, AtLevel(e, l).deletes, AtLevel(e, l).adds))
    {
      hide Saved, ApplyLevel, AtLevel;
      forall l | 0 <= l < NUM_LEVELS
        ensures OneByOne(less, first[l], AllAtLevel(es + [e], l))
                == Saved(less, files[l], ApplyLevel(less, NO_CHANGE, AtLevel(e, l).deletes, AtLevel(e, l).adds))
      {
        assert AllAtLevel(es + [e], l)[..|es|] == AllAtLevel(es, l);
      }
    }

    /** Opening the database again finds what the manifest tells of: the files and, as of the last
        edit, the counters. */
    lemma ReopenReads(r: Option<Recovered>)
      requires Sound() && manifest != []
      requires forall e :: e in [snapshot] + edits ==> EditFits(e)
                                                       && (e.comparator.Some? ==> e.comparator.value == comparator)
      requires match EditsIn(manifest, comparator)
               case None => r == None
               case Some(read) => Replays(less, read, r)
      ensures r.Some? && r.value.files == manifestFiles
      ensures var last := edits[|edits| - 1];
              && r.value.logNumber == last.logNumber.value && r.value.prevLogNumber == last.prevLogNumber.value
              && r.value.nextFile == last.nextFile.value && r.value.lastSequence == last.lastSequence.value
      ensures NumbersHold(less, r.value.files, [], r.value.files, r.value.nextFile)
    {
      hide EditFits, IsSnapshot, OneByOne, TotalOrder, Listed, Fresh, Replays, EditsIn;
      forall l: nat | l < NUM_LEVELS
        ensures LevelApart(less, first[l], AllAtLevel(edits, l)) && NoneBack(first[l], AllAtLevel(edits, l))
      {
        FreshLevel(less, first[l], AllAtLevel(edits, l));
      }
      hide LevelApart, NoneBack;
      ReplayRebuilds(less, comparator, first, snapshot, edits, r);
      StartsAnew(less, first, edits, manifestFiles, edits[|edits| - 1].nextFile.value);
    }

    /** Which is the version set's files and log numbers, as long as no write of the manifest failed. */
    lemma ReopenRestores(r: Option<Recovered>)
      requires Valid() && manifest != []
      requires forall e :: e in [snapshot] + edits ==> EditFits(e)
                                                       && (e.comparator.Some? ==> e.comparator.value == comparator)
      requires match EditsIn(manifest, comparator)
               case None => r == None
               case Some(read) => Replays(less, read, r)
      ensures r.Some? && r.value.files == files
      ensures r.value.logNumber == logNumber && r.value.prevLogNumber == prevLogNumber
      ensures var last := edits[|edits| - 1]; r.value.nextFile == last.nextFile.value
                                              && r.value.lastSequence == last.lastSequence.value
    {
      hide Sound, EditFits, Replays, EditsIn;
      ReopenReads(r);
    }
  }
}
