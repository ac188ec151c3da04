/** Compactions of a level take turns over its key range: as long as the level stays as it is, because
    compactions fail or only move its pointer on, every file has its turn. */
module CompactionTurns {
  import opened Options
  import opened InternalKeys
  import opened Files
  import opened CompactionInputs

  /** Turns one after another, each from where the one before ended. */
  ghost predicate TakeTurns(files: seq<File>, due: Option<InternalKey>, turns: seq<seq<File>>, ends: seq<InternalKey>)
    decreases |turns|
  {
    && |turns| == |ends|
    && (turns != [] ==> IsTurn(files, due, turns[0], ends[0])
                        && TakeTurns(files, Some(ends[0]), turns[1..], ends[1..]))
  }

  ghost function FilesPast(files: seq<File>, due: Option<InternalKey>): (past: set<File>)
    ensures forall f :: f in past <==> f in files && (due.Some? ==> Less(due.value, f.largest))
  {
    set f | f in files && (due.Some? ==> Less(due.value, f.largest))
  }

  ghost function AllFiles(files: seq<File>): set<File> {
    set f | f in files
  }

  /** How many turns a file may have to wait: those past the pointer first, and then, if it is not one of
      them, those from the front again. */
  ghost function Wait(files: seq<File>, due: Option<InternalKey>, f: File): nat {
    |FilesPast(files, due)| + if f in FilesPast(files, due) then 0 else |AllFiles(files)|
  }

  lemma Fewer(a: set<File>, b: set<File>, f: File)
    requires a <= b && f in b && f !in a
    ensures |a| < |b|
  {
    assert a + {f} <= b;
    assert |b - (a + {f})| + |a + {f}| == |b|;
  }

  /** A turn takes the file, or leaves it fewer turns to wait. */
  lemma TurnShortensWait(files: seq<File>, due: Option<InternalKey>, inputs: seq<File>, end: InternalKey, f: File)
    requires IsTurn(files, due, inputs, end) && InKeyOrder(files) && f in files && f !in inputs
    ensures Wait(files, Some(end), f) < Wait(files, due, f)
  {
    var g :| g in inputs && IsNextDue(files, due, g);
    var before, after := FilesPast(files, due), FilesPast(files, Some(end));
    assert g in files && !Less(end, g.largest);
    if before == {} {
      assert forall x :: x in files ==> x !in before;
      assert !exists x :: x in files && Past(due, x);
      Fewer(after, AllFiles(files), g);
    } else {
      var x :| x in before;
      assert x in files && Past(due, x);
      assert g in before;
      forall y | y in after
        ensures y in before
      {
        if due.Some? {
          LessIsStrictTotalOrder(due.value, g.largest, end);
          LessIsStrictTotalOrder(due.value, end, y.largest);
          LessIsStrictTotalOrder(end, g.largest, g.largest);
        }
      }
      Fewer(after, before, g);
    }
  }

  /** While the level stays as it is, every file has its turn, within twice as many turns as the level has
      files. */
  lemma {:induction false} EveryFileHasItsTurn(files: seq<File>, due: Option<InternalKey>, turns: seq<seq<File>>,
      ends: seq<InternalKey>, f: File)
    requires InKeyOrder(files) && f in files
    requires TakeTurns(files, due, turns, ends) && |turns| >= Wait(files, due, f)
    ensures exists i :: 0 <= i < |turns| && f in turns[i]
    ensures Wait(files, due, f) <= 2 * |files|
    decreases |turns|
  {
    WaitIsShort(files, due, f);
    if f in turns[0] {
      assert f in turns[0];
    } else {
      TurnShortensWait(files, due, turns[0], ends[0], f);
      EveryFileHasItsTurn(files, Some(ends[0]), turns[1..], ends[1..], f);
      var i :| 0 <= i < |turns[1..]| && f in turns[1..][i];
      assert f in turns[i + 1];
    }
  }

  lemma WaitIsShort(files: seq<File>, due: Option<InternalKey>, f: File)
    requires f in files
    ensures 0 < Wait(files, due, f) <= 2 * |files|
  {
    AtMostAll(files);
    Subset(FilesPast(files, due), AllFiles(files));
    assert f in AllFiles(files);
  }

  lemma Subset(a: set<File>, b: set<File>)
    requires a <= b
    ensures |a| <= |b|
  {
    assert a + (b - a) == b;
  }

  lemma {:induction false} AtMostAll(files: seq<File>)
    ensures |AllFiles(files)| <= |files|
  {
    if files != [] {
      AtMostAll(files[1..]);
      assert AllFiles(files) == AllFiles(files[1..]) + {files[0]};
    }
  }
}
