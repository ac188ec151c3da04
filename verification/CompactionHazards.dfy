/** Two situations in which the merge loop does change what a live snapshot reads, each with the
    smallest data that shows it. */
module CompactionHazards {
  import opened InternalKeys
  import opened Reads
  import opened Files
  import opened CompactionInputs
  import opened CompactionMeaning
  import opened CompactionWork
  import opened PointLookup
  import opened VersionChanges

  function At(u: UserKey, sequence: nat, kind: Byte): Entry {
    Entry(InternalKey(u, sequence, kind), [])
  }

  /** A tombstone over a key that does not parse: once the tombstone is forgotten, readers meet the
      unparsable entry, which is never hidden. */
  lemma UnparsableResurfaces()
    ensures var input := [At(1, 5, TYPE_DELETION), At(1, 3, 7)];
            && Sorted(input) && UniqueKeys(Elements(input) + {})
            && !PreservesReads(input, {}, 9, _ => true)
  {
    hide PreservesReads;
    var input := [At(1, 5, TYPE_DELETION), At(1, 3, 7)];
    var base := (_: UserKey) => true;
    var left := LeftBehind(input, {});
    assert input[0] in input && input[1] in input;
    assert Sorted(input) && UniqueKeys(Elements(input) + {});
    assert IsNewest(Elements(input) + {}, 1, 9, input[0]);
    assert IsNewest(left, 1, 5, input[1]);
    ReadAtNewest(left, 1, 5, input[1]);
    assert ObsoleteTombstone(input[0], 9, base);
    assert !TombstonesHideNothing(input, {}, 9, base);
    CompactionPreservesReads(input, {}, 9, base);
  }

  function UpperFile(): File {
    File(1, 1, At(1, 9, TYPE_VALUE).key, At(1, 9, TYPE_VALUE).key, [At(1, 9, TYPE_VALUE)])
  }

  function ParentFile(): File {
    File(2, 1, At(1, 6, TYPE_VALUE).key, At(2, 5, TYPE_DELETION).key, [At(1, 6, TYPE_VALUE), At(2, 5, TYPE_DELETION)])
  }

  function LeftParentFile(): File {
    File(3, 1, At(2, 4, TYPE_VALUE).key, At(2, 4, TYPE_VALUE).key, [At(2, 4, TYPE_VALUE)])
  }

  /** A user key spread over two tables of one level, the newer of them holding its deletion. */
  function SplitKeyVersion(): Version {
    [[], [UpperFile()], [ParentFile(), LeftParentFile()], [], [], [], []]
  }

  lemma SplitKeyLevelsOk()
    ensures LevelsOk(SplitKeyVersion())
  {
    assert UpperFile().Ok() && LeftParentFile().Ok();
    assert ParentFile().Ok();
    var v: Version := SplitKeyVersion();
    assert v[0] == [] && v[3] == [] && v[4] == [] && v[5] == [] && v[6] == [];
    assert FilesOk(v[1]) && FilesOk(v[2]);
    assert DisjointSorted(v[2]);
  }

  lemma SplitKeyNewerAbove()
    ensures NewerAbove(SplitKeyVersion())
  {
    var v: Version := SplitKeyVersion();
    assert NewerThan(UpperFile().entries, ParentFile().entries);
    assert NewerThan(UpperFile().entries, LeftParentFile().entries);
    forall p: nat, q: nat, i: nat, j: nat | p < q < |v| && i < |v[p]| && 0 <= j < |v[q]|
      ensures NewerThan(v[p][i].entries, v[q][j].entries)
    {
      assert p == 1 && q == 2;
    }
  }

  lemma SplitKeyInputsGood()
    requires LevelsOk(SplitKeyVersion())
    ensures GoodInputs(SplitKeyVersion(), 1, [UpperFile()], [ParentFile()])
  {
    var v, a, b := SplitKeyVersion(), UpperFile(), ParentFile();
    assert Members([a]) == {a} && Members([b]) == {b};
    assert a in v[1] && b in v[2];
    SingleFileJoined(a);
    JoinedUnion({a}, {b});
    assert GaplessChoice(v[1], [a]);
    assert BoundaryClosed(v[1], [a]);
  }

  /** The inputs that the selection loops choose for this version, which satisfies every level
      invariant, leave out the table that carries on with the deleted user key; the compaction
      forgets the deletion and the old value comes back. */
  lemma OpenParentsResurrect()
    ensures var v := SplitKeyVersion();
            && LevelsOk(v) && NewerAbove(v)
            && GoodInputs(v, 1, [UpperFile()], [ParentFile()]) && !ParentsClosed(v, 1, [ParentFile()])
            && BaseLevel(v, 1, 2)
            && !PreservesReads(SplitKeyInput(), Elements(LeftParentFile().entries), 9, BaseTest(v, 1))
  {
    hide LevelsOk, NewerAbove, GoodInputs, PreservesReads, Elements;
    SplitKeyLevelsOk();
    SplitKeyNewerAbove();
    SplitKeyInputsGood();
    LeftParentContinues();
    OldValueReturns(BaseTest(SplitKeyVersion(), 1));
  }

  lemma LeftParentContinues()
    ensures !ParentsClosed(SplitKeyVersion(), 1, [ParentFile()])
    ensures BaseLevel(SplitKeyVersion(), 1, 2)
  {
    var v: Version := SplitKeyVersion();
    assert LeftParentFile() in v[2] && LeftParentFile() !in [ParentFile()] && ParentFile() in [ParentFile()];
    assert Continues(LeftParentFile(), ParentFile().largest);
  }

  lemma OnlyChoice(inputs0: seq<File>, inputs1: seq<File>)
    requires LevelsOk(SplitKeyVersion()) && GoodInputs(SplitKeyVersion(), 1, inputs0, inputs1)
    ensures Members(inputs0) == {UpperFile()} && Members(inputs1) == {ParentFile()}
    ensures !ParentsClosed(SplitKeyVersion(), 1, inputs1)
  {
    var v := SplitKeyVersion();
    hide LevelsOk, BoundaryClosed, Joined, GaplessChoice;
    assert v[1] == [UpperFile()] && v[2] == [ParentFile(), LeftParentFile()];
    assert inputs0[0] in v[1];
    assert Members(inputs0) == {UpperFile()};
    assert ParentFile() in v[2] && LeftParentFile() in v[2];
    assert Members(inputs1) == {ParentFile()};
    assert ParentFile() in Members(inputs1) && LeftParentFile() !in Members(inputs1);
    assert Continues(LeftParentFile(), ParentFile().largest);
  }

  /** The selection code itself, started from the upper table, comes to these inputs. */
  method ChooseInputs(expandedLimit: nat) returns (inputs0: seq<File>, inputs1: seq<File>)
    ensures LevelsOk(SplitKeyVersion()) && GoodInputs(SplitKeyVersion(), 1, inputs0, inputs1)
    ensures Members(inputs0) == {UpperFile()} && Members(inputs1) == {ParentFile()}
    ensures !ParentsClosed(SplitKeyVersion(), 1, inputs1)
  {
    hide LevelsOk, GoodInputs, Joined, ParentsClosed;
    SplitKeyLevelsOk();
    UpperFileAlone();
    var compactPointer;
    inputs0, inputs1, compactPointer := SetupOtherInputs(SplitKeyVersion(), 1, [UpperFile()], expandedLimit);
    OnlyChoice(inputs0, inputs1);
  }

  lemma UpperFileAlone()
    requires LevelsOk(SplitKeyVersion())
    ensures GoodLevelInputs(SplitKeyVersion(), 1, [UpperFile()]) && Joined(Members([UpperFile()]))
  {
    var a := UpperFile();
    assert Members([a]) == {a} && a in SplitKeyVersion()[1];
    SingleFileJoined(a);
    assert GaplessChoice(SplitKeyVersion()[1], [a]);
  }

  function SplitKeyInput(): seq<Entry> {
    [At(1, 9, TYPE_VALUE), At(1, 6, TYPE_VALUE), At(2, 5, TYPE_DELETION)]
  }

  lemma SplitKeyEntries()
    ensures Sorted(SplitKeyInput())
    ensures Elements(SplitKeyInput()) == {At(1, 9, TYPE_VALUE), At(1, 6, TYPE_VALUE), At(2, 5, TYPE_DELETION)}
    ensures Elements(LeftParentFile().entries) == {At(2, 4, TYPE_VALUE)}
  {
    var input := SplitKeyInput();
    assert Elements(input) == {input[0], input[1], input[2]};
    assert LeftParentFile().entries == [At(2, 4, TYPE_VALUE)];
  }

  lemma StaleIsLeft()
    ensures ReadAt(LeftBehind(SplitKeyInput(), {At(2, 4, TYPE_VALUE)}), 2, 5) == Found([])
  {
    var stale := At(2, 4, TYPE_VALUE);
    assert Unparsable(SplitKeyInput()) == {};
    assert LeftBehind(SplitKeyInput(), {stale}) == {stale};
    assert IsNewest({stale}, 2, 5, stale);
    ReadAtNewest({stale}, 2, 5, stale);
  }

  lemma DeletionWasNewest()
    ensures UniqueKeys(Elements(SplitKeyInput()) + Elements(LeftParentFile().entries))
    ensures IsNewest(Elements(SplitKeyInput()) + Elements(LeftParentFile().entries), 2, 9, At(2, 5, TYPE_DELETION))
  {
    hide Elements;
    SplitKeyEntries();
    var all := {At(1, 9, TYPE_VALUE), At(1, 6, TYPE_VALUE), At(2, 5, TYPE_DELETION), At(2, 4, TYPE_VALUE)};
    assert Elements(SplitKeyInput()) + Elements(LeftParentFile().entries) == all;
    assert IsNewest(all, 2, 9, At(2, 5, TYPE_DELETION));
  }

  lemma OldValueReturns(base: UserKey -> bool)
    requires base(2)
    ensures !PreservesReads(SplitKeyInput(), Elements(LeftParentFile().entries), 9, base)
  {
    hide ReadAt, PreservesReads, Sorted, UniqueKeys, Elements, LeftBehind, IsNewest, Dropped, Survivors;
    SplitKeyEntries();
    DeletionWasNewest();
    StaleIsLeft();
    var input, rest := SplitKeyInput(), Elements(LeftParentFile().entries);
    assert input[2] == At(2, 5, TYPE_DELETION);
    assert ObsoleteTombstone(input[2], 9, base);
    assert !TombstonesHideNothing(input, rest, 9, base);
    CompactionPreservesReads(input, rest, 9, base);
  }
}
