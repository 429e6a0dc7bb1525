/**
  The manifest of a run: the edits that flushes, moves and compactions install never give a level a
  file number twice, so whatever prefix of their records a crash leaves, recovery yields the levels
  of a state of the run.
 */
module RunManifests {
  import opened Basics
  import opened InternalKeys
  import opened LsmTree
  import opened CompactionInputs
  import opened CompactionInvisible
  import opened Runs
  import Coding
  import VB = VersionBuilder
  import LogFormat
  import LogRoundTrip
  import EditCodec
  import Manifest

  // ----- the edit of a step -----

  ghost function Deleted(c: Inputs): (r: set<(int, nat)>) {
    (set f | f in c.inputs0 :: (c.level as int, f.number)) + set f | f in c.inputs1 :: (c.level + 1 as int, f.number)
  }

  function AddedAt(level: nat, files: seq<File>): (r: seq<(int, File)>)
    ensures |r| == |files| && forall i :: 0 <= i < |files| ==> r[i] == (level as int, files[i])
  {
    seq(|files|, (i: int) requires 0 <= i < |files| => (level as int, files[i]))
  }

  /** What a step installs; steps that leave the version alone install nothing. */
  ghost function EditOf(db: Db, step: Step): (r: Option<VB.Edit>) {
    match step
    case Flush(lvl, f) => Some(VB.Edit({}, if db.imm == Some([]) then [] else [(lvl as int, f)]))
    case MoveDown(c) => Some(VB.Edit(Deleted(c), AddedAt(c.level + 1, c.inputs0)))
    case Compact(c, _, outputs) => Some(VB.Edit(Deleted(c), AddedAt(c.level + 1, outputs)))
    case _ => None
  }

  lemma ListingMeans(levels: seq<seq<File>>, p: (int, File))
    ensures p in VB.ListingOf(levels) <==> At(levels, p.0, p.1)
  {
  }

  /** A listed file is named as deleted exactly if it is an input. */
  lemma DeletedMeans(levels: seq<seq<File>>, nextFile: nat, c: Inputs, i: int, f: File)
    requires ValidLevels(levels, nextFile) && Selected(levels, c) && At(levels, i, f)
    ensures (i, f.number) in Deleted(c) <==> IsInput(c, i, f)
  {
    hide BoundaryClosed, OverlapClosed, SpanOf, Distinct;
    forall g | g in c.inputs0 ensures At(levels, c.level, g) {
      InputAt(levels, c, c.level, g);
    }
    forall g | g in c.inputs1 ensures At(levels, c.level + 1, g) {
      InputAt(levels, c, c.level + 1, g);
    }
  }

  /** Replacing the inputs by other files is what the edit means. */
  lemma MovedIsApplied(levels: seq<seq<File>>, nextFile: nat, c: Inputs, outputs: seq<File>, levels': seq<seq<File>>)
    requires ValidLevels(levels, nextFile) && Selected(levels, c) && Moved(levels, c, outputs, levels')
    ensures VB.ListingOf(levels') ==
      VB.ApplyEdit(VB.ListingOf(levels), VB.Edit(Deleted(c), AddedAt(c.level + 1, outputs)))
  {
    hide Selected, ValidLevels, SortedFiles, Deleted, At, IsInput;
    var edit := VB.Edit(Deleted(c), AddedAt(c.level + 1, outputs));
    forall p: (int, File)
      ensures p in VB.ListingOf(levels') <==> p in VB.ApplyEdit(VB.ListingOf(levels), edit)
    {
      ListingMeans(levels, p);
      ListingMeans(levels', p);
      InAdded(c.level + 1, outputs, p);
      if At(levels, p.0, p.1) {
        DeletedMeans(levels, nextFile, c, p.0, p.1);
      }
      assert At(levels', p.0, p.1) <==>
        (At(levels, p.0, p.1) && !IsInput(c, p.0, p.1)) || (p.0 == c.level + 1 && p.1 in outputs);
    }
  }

  lemma InAdded(level: nat, files: seq<File>, p: (int, File))
    ensures p in AddedAt(level, files) <==> p.0 == level && p.1 in files
  {
    if p.0 == level && p.1 in files {
      var i :| 0 <= i < |files| && files[i] == p.1;
      assert AddedAt(level, files)[i] == p;
    }
  }

  /** What installing an edit has to be like, from one version and next file number to others. */
  ghost predicate Installs(levels: seq<seq<File>>, next: nat, edit: VB.Edit, levels': seq<seq<File>>, next': nat) {
    && VB.ListingOf(levels') == VB.ApplyEdit(VB.ListingOf(levels), edit)
    && VB.NewOrMoved(VB.ListingOf(levels), next, next', edit)
  }

  lemma FlushInstalls(db: Db, lvl: nat, f: File, db': Db)
    requires Structured(db) && Flushed(db, lvl, f, db')
    ensures Installs(db.levels, db.nextFile, EditOf(db, Flush(lvl, f)).value, db'.levels, db'.nextFile)
  {
    hide NewerFirst, MemNewest, Recorded, ValidSnapshots, SortedFiles, MayEnter;
    var edit := EditOf(db, Flush(lvl, f)).value;
    forall p: (int, File)
      ensures p in VB.ListingOf(db'.levels) <==> p in VB.ApplyEdit(VB.ListingOf(db.levels), edit)
    {
      ListingMeans(db.levels, p);
      ListingMeans(db'.levels, p);
    }
  }

  lemma MoveInstalls(db: Db, c: Inputs, db': Db)
    requires Structured(db) && MovedDown(db, c, db')
    ensures Installs(db.levels, db.nextFile, EditOf(db, MoveDown(c)).value, db'.levels, db'.nextFile)
  {
    hide NewerFirst, MemNewest, Recorded, ValidSnapshots, SortedFiles, OrderedLevels, BoundaryClosed, SpanOf;
    MovedIsApplied(db.levels, db.nextFile, c, c.inputs0, db'.levels);
    var edit, f := EditOf(db, MoveDown(c)).value, c.inputs0[0];
    InputAt(db.levels, c, c.level, f);
    ListingMeans(db.levels, (c.level as int, f));
    assert (c.level as int, f.number) in edit.deleted;
    assert edit.added == [(c.level + 1 as int, f)];
    hide VB.ListingOf, VB.ApplyEdit, Selected, Moved, EditOf;
    assert VB.TakenDown(VB.ListingOf(db.levels), edit, (c.level + 1 as int, f));
  }

  lemma CompactInstalls(db: Db, c: Inputs, m: seq<Entry>, outputs: seq<File>, db': Db)
    requires Structured(db) && Compacted(db, c, m, outputs, db')
    ensures Installs(db.levels, db.nextFile, EditOf(db, Compact(c, m, outputs)).value, db'.levels, db'.nextFile)
  {
    hide NewerFirst, MemNewest, Recorded, ValidSnapshots, SortedFiles, OrderedLevels, BoundaryClosed, SpanOf, IsMerged;
    MovedIsApplied(db.levels, db.nextFile, c, outputs, db'.levels);
    var edit := EditOf(db, Compact(c, m, outputs)).value;
    hide VB.ListingOf, VB.ApplyEdit, Moved;
    forall p | p in edit.added ensures 0 <= p.0 < NUM_LEVELS && db.nextFile <= p.1.number < db'.nextFile {
      InAdded(c.level + 1, outputs, p);
      var i :| 0 <= i < |outputs| && outputs[i] == p.1;
    }
  }

  /** A step installs its edit, or leaves the version alone. */
  lemma StepInstalls(db: Db, step: Step, db': Db)
    requires Structured(db) && Next(db, step, db')
    ensures db.nextFile <= db'.nextFile
    ensures EditOf(db, step).None? ==> db'.levels == db.levels
    ensures EditOf(db, step).Some? ==>
      Installs(db.levels, db.nextFile, EditOf(db, step).value, db'.levels, db'.nextFile)
  {
    hide Structured, Installs;
    match step
    case Flush(lvl, f) => FlushInstalls(db, lvl, f, db');
    case MoveDown(c) => MoveInstalls(db, c, db');
    case Compact(c, m, outputs) => CompactInstalls(db, c, m, outputs, db');
    case _ =>
  }

  // ----- the manifest of a run -----

  /** The versions that were current in turn during the first `n` steps, and the edits between them. */
  datatype Log = Log(versions: seq<seq<seq<File>>>, edits: seq<VB.Edit>, nexts: seq<nat>)

  ghost function LogOf(states: seq<Db>, steps: seq<Step>, n: nat): (r: Log)
    requires n <= |steps| < |states|
    ensures |r.versions| == |r.nexts| == |r.edits| + 1
  {
    if n == 0 then Log([states[0].levels], [], [states[0].nextFile])
    else
      var before, edit := LogOf(states, steps, n - 1), EditOf(states[n - 1], steps[n - 1]);
      if edit.None? then before
      else Log(before.versions + [states[n].levels], before.edits + [edit.value], before.nexts + [states[n].nextFile])
  }

  /** Every version is that of some state of the run. */
  lemma {:induction false} VersionsAreStates(states: seq<Db>, steps: seq<Step>, n: nat, k: nat)
    requires n <= |steps| < |states| && k < |LogOf(states, steps, n).versions|
    ensures exists m :: 0 <= m <= n && LogOf(states, steps, n).versions[k] == states[m].levels
  {
    hide EditOf;
    if n > 0 && k < |LogOf(states, steps, n - 1).versions| {
      VersionsAreStates(states, steps, n - 1, k);
    }
  }

  ghost predicate LogOk(r: Log) {
    && |r.versions| == |r.nexts| == |r.edits| + 1
    && (forall k :: 0 <= k < |r.versions| ==> |r.versions[k]| == NUM_LEVELS && VB.SortedLevels(r.versions[k]))
    && forall k :: 0 <= k < |r.edits| ==>
         Installs(r.versions[k], r.nexts[k], r.edits[k], r.versions[k + 1], r.nexts[k + 1])
  }

  lemma LowerNext(levels: seq<seq<File>>, low: nat, next: nat, edit: VB.Edit, levels': seq<seq<File>>, next': nat)
    requires Installs(levels, next, edit, levels', next') && low <= next
    ensures Installs(levels, low, edit, levels', next')
  {
    hide VB.ListingOf, VB.ApplyEdit, VB.TakenDown;
  }

  lemma {:induction false} LogHolds(states: seq<Db>, steps: seq<Step>, n: nat)
    requires IsRun(states, steps) && n <= |steps|
    ensures var r := LogOf(states, steps, n);
      && LogOk(r) && r.versions[0] == EmptyDb().levels && r.versions[|r.edits|] == states[n].levels
      && r.nexts[0] == 2 && r.nexts[|r.edits|] <= states[n].nextFile
  {
    hide Structured, Next, EditOf, Installs, VB.SortedLevels;
    RunsKeepStructure(states, steps, n);
    StructuredLevels(states[n]);
    if n > 0 {
      LogHolds(states, steps, n - 1);
      RunsKeepStructure(states, steps, n - 1);
      StepInstalls(states[n - 1], steps[n - 1], states[n]);
      var before, edit := LogOf(states, steps, n - 1), EditOf(states[n - 1], steps[n - 1]);
      if edit.Some? {
        LowerNext(states[n - 1].levels, before.nexts[|before.edits|], states[n - 1].nextFile, edit.value,
            states[n].levels, states[n].nextFile);
      }
    }
  }

  lemma StructuredLevels(db: Db)
    requires Structured(db)
    ensures |db.levels| == NUM_LEVELS && VB.SortedLevels(db.levels)
  {
  }

  lemma NoFiles()
    ensures VB.ListingOf(EmptyDb().levels) == {}
  {
  }

  /** The edits of any run are installed in turn, and give no level a number twice. */
  lemma RunsAddOnce(states: seq<Db>, steps: seq<Step>, n: nat)
    requires IsRun(states, steps) && n <= |steps|
    ensures var r := LogOf(states, steps, n);
      VB.InstalledInTurn(r.versions, r.edits) && VB.AddedOnce({}, r.edits)
  {
    var r := LogOf(states, steps, n);
    hide IsRun, LogOf, VB.SortedLevels, VB.NewOrMoved, VB.ApplyEdit, VB.ListingOf, VB.AddedOnce, EmptyDb;
    LogHolds(states, steps, n);
    NoFiles();
    assert VB.InstalledInTurn(r.versions, r.edits);
    forall k | 0 <= k < |r.edits|
      ensures VB.NewOrMoved(VB.ApplyEdits({}, r.edits[..k]), r.nexts[k], r.nexts[k + 1], r.edits[k])
    {
      VB.InTurnMeans(r.versions, r.edits, k);
      assert Installs(r.versions[k], r.nexts[k], r.edits[k], r.versions[k + 1], r.nexts[k + 1]);
    }
    VB.NumbersAddedOnce({}, r.edits, r.nexts);
  }

  /** Recorded from the empty database on, the edits of a run make up a manifest that recovery can read. */
  lemma RunIsInstalled(c: Manifest.Catalog, states: seq<Db>, steps: seq<Step>, n: nat, edits: seq<EditCodec.Edit>)
    requires IsRun(states, steps) && n <= |steps| && |c.comparator| < Coding.TwoTo32
    requires Manifest.AllWritten(c, edits) && Manifest.AllReadable(edits)
    requires Manifest.Meanings(c, edits) == LogOf(states, steps, n).edits
    ensures Manifest.Installed(c, LogOf(states, steps, n).versions, edits)
  {
    hide IsRun, LogOf, VB.AddedOnce, VB.InstalledInTurn, Manifest.Meanings, Manifest.AllWritten, Manifest.AllReadable;
    LogHolds(states, steps, n);
    RunsAddOnce(states, steps, n);
    NoFiles();
    EmptyIsListable(c);
  }

  lemma EmptyIsListable(c: Manifest.Catalog)
    requires |c.comparator| < Coding.TwoTo32
    ensures Manifest.Listable(c, EmptyDb().levels)
  {
    var levels := EmptyDb().levels;
    assert forall i :: 0 <= i < NUM_LEVELS ==> levels[i] == [];
  }

  /**
    Whatever prefix of the manifest of a run a crash leaves, recovery refuses it for want of a complete
    edit, or yields the levels that some state of the run had, the last ones recorded completely.
   */
  lemma RunSurvivesCrash(c: Manifest.Catalog, crc: LogFormat.CrcStep, states: seq<Db>, steps: seq<Step>, n: nat,
      edits: seq<EditCodec.Edit>, k: nat, file: seq<Byte>, r: Manifest.Recovery)
    requires IsRun(states, steps) && n <= |steps| && |c.comparator| < Coding.TwoTo32
    requires Manifest.AllWritten(c, edits) && Manifest.AllReadable(edits)
    requires Manifest.Meanings(c, edits) == LogOf(states, steps, n).edits
    requires Manifest.AllKnown(c, LogOf(states, steps, n).versions[0])
    requires var records := Manifest.Records(c, LogOf(states, steps, n).versions[0], edits);
      && file <= LogFormat.LogFrom(crc, 0, records)
      && k == LogRoundTrip.Complete(crc, 0, records, |file|)
    requires Manifest.IsRecovery(c, crc, file, r)
    ensures Manifest.AfterCut(r, LogOf(states, steps, n).versions, edits, k)
    ensures r.Recovered? ==> exists m :: 0 <= m <= n && r.levels == states[m].levels
  {
    var versions := LogOf(states, steps, n).versions;
    RunIsInstalled(c, states, steps, n, edits);
    assert Manifest.CutManifest(c, crc, versions, edits, k, file);
    hide IsRun, LogOf, Manifest.CutManifest, Manifest.Installed, Manifest.Meanings, Manifest.Records,
      Manifest.IsRecovery;
    Manifest.CrashRecovery(c, crc, versions, edits, k, file, r);
    if r.Recovered? {
      VersionsAreStates(states, steps, n, k - 1);
    }
  }
}
