/**
  Version edits: the builder that applies any number of edits to a version and then
  writes out each level as one sorted list.
 */
module VersionBuilder {
  import opened LsmTree

  /** Files, by number, to take out of a level, and files to put into a level. */
  datatype Edit = Edit(deleted: set<(int, nat)>, added: seq<(int, File)>)

  /** A version as the set of its (level, file) pairs. */
  type Listing = set<(int, File)>

  ghost function ListingOf(levels: seq<seq<File>>): (r: Listing) {
    set i, f | 0 <= i < |levels| && f in levels[i] :: (i, f)
  }

  ghost function Pairs(added: seq<(int, File)>): (r: Listing) {
    set p | p in added
  }

  /** What one edit means. */
  ghost function ApplyEdit(files: Listing, edit: Edit): (r: Listing) {
    (set p | p in files && (p.0, p.1.number) !in edit.deleted) + Pairs(edit.added)
  }

  /** What a list of edits means when each is installed in turn. */
  ghost function ApplyEdits(files: Listing, edits: seq<Edit>): (r: Listing) {
    if edits == [] then files else ApplyEdit(ApplyEdits(files, edits[..|edits| - 1]), edits[|edits| - 1])
  }

  /** A file added by `edit` has a number not used so far in its level. */
  ghost predicate FreshIn(seen: Listing, added: seq<(int, File)>) {
    && (forall p :: p in added ==> 0 <= p.0 < NUM_LEVELS)
    && (forall p, q :: p in added && q in seen && p.0 == q.0 ==> p.1.number != q.1.number)
    && forall i, j :: 0 <= i < j < |added| && added[i].0 == added[j].0 ==> added[i].1.number != added[j].1.number
  }

  /** Everything a base version and some edits ever put into a level. */
  ghost function Seen(files: Listing, edits: seq<Edit>): (r: Listing) {
    if edits == [] then files else Seen(files, edits[..|edits| - 1]) + Pairs(edits[|edits| - 1].added)
  }

  /** No edit adds to a level a file number that was ever there before. */
  ghost predicate AddedOnce(files: Listing, edits: seq<Edit>) {
    edits != [] ==>
      AddedOnce(files, edits[..|edits| - 1]) && FreshIn(Seen(files, edits[..|edits| - 1]), edits[|edits| - 1].added)
  }

  lemma HeadOnce(a: seq<File>)
    requires SortedFiles(a) && a != []
    ensures forall f :: f in a[1..] <==> f in a && f != a[0]
  {
    assert forall k :: 1 <= k < |a| ==> FileBefore(a[0], a[k]) && a[k] in a[1..];
    assert a == [a[0]] + a[1..];
  }

  /** A strictly sorted list of files is determined by its members. */
  lemma {:induction false} SortedUnique(a: seq<File>, b: seq<File>)
    requires SortedFiles(a) && SortedFiles(b) && forall f :: f in a <==> f in b
    ensures a == b
  {
    assert a != [] ==> a[0] in a;
    assert b != [] ==> b[0] in b;
    if a != [] && b != [] {
      assert a[0] in b && b[0] in a;
      var i :| 0 <= i < |b| && b[i] == a[0];
      var j :| 0 <= j < |a| && a[j] == b[0];
      assert i > 0 ==> FileBefore(b[0], b[i]);
      HeadOnce(a);
      HeadOnce(b);
      SortedUnique(a[1..], b[1..]);
    }
  }

  /** The order of a level does not tell the files apart. */
  predicate SamePlace(f: File, g: File) {
    f.smallest == g.smallest && f.number == g.number
  }

  ghost predicate PlaceTaken(fs: seq<File>, f: File) {
    exists g :: g in fs && SamePlace(g, f)
  }

  /** Insertion into a set ordered by smallest key and number: a file whose place is taken stays out. */
  function InsertFile(fs: seq<File>, f: File): (r: seq<File>) {
    if fs == [] || FileBefore(f, fs[0]) then [f] + fs
    else if SamePlace(f, fs[0]) then fs
    else [fs[0]] + InsertFile(fs[1..], f)
  }

  lemma {:induction false} InsertFileSorted(fs: seq<File>, f: File)
    requires SortedFiles(fs)
    ensures SortedFiles(InsertFile(fs, f))
    ensures forall g :: g in InsertFile(fs, f) <==> g in fs || (g == f && !PlaceTaken(fs, f))
  {
    if fs == [] || FileBefore(f, fs[0]) {
      forall g | g in fs ensures FileBefore(f, g) && !SamePlace(g, f) {
        var i :| 0 <= i < |fs| && fs[i] == g;
        assert i > 0 ==> FileBefore(fs[0], fs[i]);
      }
    } else if SamePlace(f, fs[0]) {
      assert fs[0] in fs;
      assert PlaceTaken(fs, f);
    } else {
      assert FileBefore(fs[0], f);
      InsertFileSorted(fs[1..], f);
      var r := InsertFile(fs[1..], f);
      assert fs == [fs[0]] + fs[1..];
      assert PlaceTaken(fs, f) <==> PlaceTaken(fs[1..], f) by {
        assert !SamePlace(fs[0], f);
        assert forall g :: g in fs <==> g == fs[0] || g in fs[1..];
      }
      forall j | 0 <= j < |r| ensures FileBefore(fs[0], r[j]) {
        assert r[j] in r;
      }
    }
  }

  // ----- the builder -----

  /** A level of the builder: numbers deleted so far and files added so far. */
  datatype LevelState = LevelState(deleted: set<nat>, added: seq<File>)

  function Entered(state: LevelState, f: File): LevelState {
    LevelState(state.deleted - {f.number}, InsertFile(state.added, f))
  }

  function Erased(states: seq<LevelState>, deleted: set<(int, nat)>): (r: seq<LevelState>)
    ensures |r| == |states|
    ensures forall i :: 0 <= i < |r| ==>
      r[i].added == states[i].added &&
      forall n :: n in r[i].deleted <==> n in states[i].deleted || (i, n) in deleted
  {
    seq(|states|, i requires 0 <= i < |states| =>
      states[i].(deleted := states[i].deleted + set d | d in deleted && d.0 == i :: d.1))
  }

  predicate LevelsInRange(added: seq<(int, File)>) {
    forall j :: 0 <= j < |added| ==> 0 <= added[j].0 < NUM_LEVELS
  }

  function EnteredAll(states: seq<LevelState>, added: seq<(int, File)>): (r: seq<LevelState>)
    requires |states| == NUM_LEVELS && LevelsInRange(added)
    ensures |r| == NUM_LEVELS
  {
    if added == [] then states
    else
      var n := |added| - 1;
      var before := EnteredAll(states, added[..n]);
      before[added[n].0 := Entered(before[added[n].0], added[n].1)]
  }

  /** Record the deletions of an edit, then its additions. */
  function Applied(states: seq<LevelState>, edit: Edit): (r: seq<LevelState>)
    requires |states| == NUM_LEVELS && LevelsInRange(edit.added)
    ensures |r| == NUM_LEVELS
  {
    EnteredAll(Erased(states, edit.deleted), edit.added)
  }

  /** Level `i` of a builder knows file `f`, deleted or not. */
  ghost predicate Held(base: seq<seq<File>>, states: seq<LevelState>, i: int, f: File)
    requires |base| == |states|
  {
    0 <= i < |base| && (f in base[i] || f in states[i].added)
  }

  /** What a builder stands for: base files and added files without the deleted numbers. */
  ghost function Standing(base: seq<seq<File>>, states: seq<LevelState>): (r: Listing)
    requires |base| == |states|
    ensures forall i, f :: (i, f) in r <==> Held(base, states, i, f) && f.number !in states[i].deleted
  {
    (set i, f | 0 <= i < |base| && f in base[i] && f.number !in states[i].deleted :: (i, f)) +
    (set i, f | 0 <= i < |states| && f in states[i].added && f.number !in states[i].deleted :: (i, f))
  }

  ghost predicate SortedStates(states: seq<LevelState>) {
    |states| == NUM_LEVELS && forall i :: 0 <= i < |states| ==> SortedFiles(states[i].added)
  }

  /** Some file that `added` puts into level `i` has the place of `f`. */
  ghost predicate PlaceGiven(added: seq<(int, File)>, i: int, f: File) {
    exists j :: 0 <= j < |added| && added[j].0 == i && SamePlace(added[j].1, f)
  }

  /** `added` puts `f` into level `i`, as the first of its place. */
  ghost predicate Enters(fs: seq<File>, added: seq<(int, File)>, i: int, f: File) {
    && !PlaceTaken(fs, f)
    && exists j :: 0 <= j < |added| && added[j] == (i, f) && !PlaceGiven(added[..j], i, f)
  }

  lemma EntersMore(fs: seq<File>, added: seq<(int, File)>, p: (int, File), i: int, g: File)
    ensures PlaceGiven(added + [p], i, g) <==> PlaceGiven(added, i, g) || (p.0 == i && SamePlace(p.1, g))
    ensures Enters(fs, added + [p], i, g) <==>
      Enters(fs, added, i, g) || (p == (i, g) && !PlaceTaken(fs, g) && !PlaceGiven(added, i, g))
  {
    var more, n := added + [p], |added|;
    assert more[n] == p && more[..n] == added;
    assert forall j :: 0 <= j < n ==> more[j] == added[j] && more[..j] == added[..j];
  }

  /** What a level holds after some additions, and which numbers are deleted there. */
  ghost predicate Reached(state: LevelState, added: seq<(int, File)>, i: int, after: LevelState) {
    && SortedFiles(after.added)
    && (forall g :: g in after.added <==> g in state.added || Enters(state.added, added, i, g))
    && (forall g :: PlaceTaken(after.added, g) <==> PlaceTaken(state.added, g) || PlaceGiven(added, i, g))
    && forall d :: d in after.deleted <==> d in state.deleted && !NumberGiven(added, i, d)
  }

  /** `added` puts a file of number `d` into level `i`. */
  ghost predicate NumberGiven(added: seq<(int, File)>, i: int, d: nat) {
    exists j :: 0 <= j < |added| && added[j].0 == i && added[j].1.number == d
  }

  lemma NumberGivenMore(added: seq<(int, File)>, p: (int, File), i: int, d: nat)
    ensures NumberGiven(added + [p], i, d) <==> NumberGiven(added, i, d) || (p.0 == i && p.1.number == d)
  {
    var more, n := added + [p], |added|;
    assert more[n] == p;
    assert forall j :: 0 <= j < n ==> more[j] == added[j];
  }

  lemma ReachedMore(state: LevelState, added: seq<(int, File)>, i: int, before: LevelState, p: (int, File))
    requires Reached(state, added, i, before)
    ensures Reached(state, added + [p], i, if p.0 == i then Entered(before, p.1) else before)
  {
    hide Enters, PlaceGiven, NumberGiven, PlaceTaken, SortedFiles, InsertFile, SamePlace;
    var fs := state.added;
    forall g ensures
      && (PlaceGiven(added + [p], i, g) <==> PlaceGiven(added, i, g) || (p.0 == i && SamePlace(p.1, g)))
      && (Enters(fs, added + [p], i, g) <==>
           Enters(fs, added, i, g) || (p == (i, g) && !PlaceTaken(fs, g) && !PlaceGiven(added, i, g)))
    {
      EntersMore(fs, added, p, i, g);
    }
    forall d ensures NumberGiven(added + [p], i, d) <==> NumberGiven(added, i, d) || (p.0 == i && p.1.number == d) {
      NumberGivenMore(added, p, i, d);
    }
    if p.0 == i {
      InsertFileSorted(before.added, p.1);
      PlaceOfInserted(before.added, p.1);
    }
  }

  lemma {:induction false} EnteredMeans(states: seq<LevelState>, added: seq<(int, File)>, i: nat)
    requires SortedStates(states) && LevelsInRange(added) && i < NUM_LEVELS
    ensures Reached(states[i], added, i, EnteredAll(states, added)[i])
  {
    if added != [] {
      var n := |added| - 1;
      EnteredMeans(states, added[..n], i);
      assert added == added[..n] + [added[n]];
      ReachedMore(states[i], added[..n], i, EnteredAll(states, added[..n])[i], added[n]);
      hide Reached, Entered;
    }
  }

  lemma PlaceOfInserted(fs: seq<File>, f: File)
    requires SortedFiles(fs)
    ensures forall g :: PlaceTaken(InsertFile(fs, f), g) <==> PlaceTaken(fs, g) || SamePlace(f, g)
  {
    InsertFileSorted(fs, f);
    hide InsertFile, SortedFiles;
    var r := InsertFile(fs, f);
    forall g ensures PlaceTaken(r, g) <==> PlaceTaken(fs, g) || SamePlace(f, g) {
      if h :| h in fs && SamePlace(h, g) {
        assert h in r;
      }
      if SamePlace(f, g) {
        if h :| h in fs && SamePlace(h, f) {
          assert h in r && SamePlace(h, g);
        } else {
          assert f in r;
        }
      }
    }
  }

  /**
    The builder holds file `f` of level `i` after the edit, its place not being taken by another, and
    adding it brings back no other file whose number was deleted.
   */
  ghost predicate Lands(base: seq<seq<File>>, states: seq<LevelState>, edit: Edit, i: int, f: File)
    requires |base| == |states| && 0 <= i < |base|
  {
    && (Held(base, states, i, f) || Enters(states[i].added, edit.added, i, f))
    && forall h :: Held(base, states, i, h) && h.number == f.number && (i, h) !in edit.added ==>
         h.number !in states[i].deleted && (i, h.number) !in edit.deleted
  }

  ghost predicate AllLand(base: seq<seq<File>>, states: seq<LevelState>, edit: Edit)
    requires |base| == |states| == NUM_LEVELS && LevelsInRange(edit.added)
  {
    forall j :: 0 <= j < |edit.added| ==> Lands(base, states, edit, edit.added[j].0, edit.added[j].1)
  }

  lemma StandsAfter(base: seq<seq<File>>, states: seq<LevelState>, edit: Edit, i: nat, g: File)
    requires |base| == NUM_LEVELS && SortedStates(states) && LevelsInRange(edit.added) && i < NUM_LEVELS
    ensures (i, g) in Standing(base, Applied(states, edit)) <==>
      && (Held(base, states, i, g) || Enters(states[i].added, edit.added, i, g))
      && ((g.number in states[i].deleted || (i, g.number) in edit.deleted) ==>
           NumberGiven(edit.added, i, g.number))
  {
    var erased := Erased(states, edit.deleted);
    EnteredMeans(erased, edit.added, i);
    hide EnteredAll, SortedFiles, Enters;
  }

  lemma MeantAfter(base: seq<seq<File>>, states: seq<LevelState>, edit: Edit, i: nat, g: File)
    requires |base| == NUM_LEVELS == |states| && i < NUM_LEVELS
    ensures (i, g) in ApplyEdit(Standing(base, states), edit) <==>
      || (i, g) in edit.added
      || (Held(base, states, i, g) && g.number !in states[i].deleted && (i, g.number) !in edit.deleted)
  {
    hide Standing;
  }

  /** The builder does what an edit means exactly if every file the edit adds lands. */
  lemma AppliedIffAllLand(base: seq<seq<File>>, states: seq<LevelState>, edit: Edit)
    requires |base| == NUM_LEVELS && SortedStates(states) && LevelsInRange(edit.added)
    ensures Standing(base, Applied(states, edit)) == ApplyEdit(Standing(base, states), edit) <==>
      AllLand(base, states, edit)
  {
    var left, right := Standing(base, Applied(states, edit)), ApplyEdit(Standing(base, states), edit);
    if AllLand(base, states, edit) {
      forall p ensures p in left <==> p in right {
        LandedAgree(base, states, edit, p);
      }
    }
    if left == right {
      forall j | 0 <= j < |edit.added| ensures Lands(base, states, edit, edit.added[j].0, edit.added[j].1) {
        AgreedLand(base, states, edit, j);
      }
    }
  }

  lemma LandedAgree(base: seq<seq<File>>, states: seq<LevelState>, edit: Edit, p: (int, File))
    requires |base| == NUM_LEVELS && SortedStates(states) && LevelsInRange(edit.added) && AllLand(base, states, edit)
    ensures p in Standing(base, Applied(states, edit)) <==> p in ApplyEdit(Standing(base, states), edit)
  {
    var (i, g) := p;
    if 0 <= i < NUM_LEVELS {
      StandsAfter(base, states, edit, i, g);
      MeantAfter(base, states, edit, i, g);
      hide Standing, Applied, ApplyEdit, SortedStates, SortedFiles;
      if (i, g) in edit.added {
        var j :| 0 <= j < |edit.added| && edit.added[j] == (i, g);
        assert Lands(base, states, edit, i, g);
      } else if j :| 0 <= j < |edit.added| && edit.added[j].0 == i && edit.added[j].1.number == g.number {
        assert Lands(base, states, edit, i, edit.added[j].1);
      }
    } else {
      hide Applied, SortedStates, SortedFiles, AllLand;
      assert p !in Pairs(edit.added);
    }
  }

  lemma AgreedLand(base: seq<seq<File>>, states: seq<LevelState>, edit: Edit, j: nat)
    requires |base| == NUM_LEVELS && SortedStates(states) && LevelsInRange(edit.added) && j < |edit.added|
    requires Standing(base, Applied(states, edit)) == ApplyEdit(Standing(base, states), edit)
    ensures Lands(base, states, edit, edit.added[j].0, edit.added[j].1)
  {
    var (i, f) := edit.added[j];
    StandsAfter(base, states, edit, i, f);
    MeantAfter(base, states, edit, i, f);
    hide Standing, Applied, ApplyEdit, SortedStates, SortedFiles, Enters;
    assert (i, f) in edit.added;
    forall h | Held(base, states, i, h) && h.number == f.number && (i, h) !in edit.added
      ensures h.number !in states[i].deleted && (i, h.number) !in edit.deleted
    {
      StandsAfter(base, states, edit, i, h);
      MeantAfter(base, states, edit, i, h);
    }
  }

  /** A file with a number that was never in its level lands. */
  lemma FreshLands(base: seq<seq<File>>, states: seq<LevelState>, edit: Edit, seen: Listing)
    requires |base| == |states| == NUM_LEVELS && FreshIn(seen, edit.added) && Within(base, states, seen)
    ensures LevelsInRange(edit.added) && AllLand(base, states, edit)
  {
    forall j | 0 <= j < |edit.added|
      ensures 0 <= edit.added[j].0 < NUM_LEVELS && Lands(base, states, edit, edit.added[j].0, edit.added[j].1)
    {
      var (i, f) := edit.added[j];
      assert (i, f) in edit.added;
      assert forall h :: Held(base, states, i, h) ==> (i, h) in seen && h.number != f.number;
      assert !PlaceGiven(edit.added[..j], i, f);
      assert forall g :: g in states[i].added ==> Held(base, states, i, g);
    }
  }

  ghost predicate Within(base: seq<seq<File>>, states: seq<LevelState>, seen: Listing)
    requires |base| == |states|
  {
    forall i, f :: Held(base, states, i, f) ==> (i, f) in seen
  }

  lemma WithinMore(base: seq<seq<File>>, states: seq<LevelState>, edit: Edit, seen: Listing)
    requires |base| == NUM_LEVELS && SortedStates(states) && LevelsInRange(edit.added) && Within(base, states, seen)
    ensures Within(base, Applied(states, edit), seen + Pairs(edit.added))
  {
    var after := Applied(states, edit);
    forall i, f | Held(base, after, i, f) ensures (i, f) in seen + Pairs(edit.added) {
      EnteredMeans(Erased(states, edit.deleted), edit.added, i);
      assert f in base[i] || f in states[i].added ==> Held(base, states, i, f);
    }
  }

  lemma StillSorted(states: seq<LevelState>, edit: Edit)
    requires SortedStates(states) && LevelsInRange(edit.added)
    ensures SortedStates(Applied(states, edit))
  {
    forall i | 0 <= i < NUM_LEVELS ensures SortedFiles(Applied(states, edit)[i].added) {
      EnteredMeans(Erased(states, edit.deleted), edit.added, i);
    }
  }

  /**
    A number that is deleted and given again to a file with the same smallest key brings the deleted
    file back and keeps the new one out.
   */
  lemma DeletedFileComesBack(base: seq<seq<File>>, level: nat, f: File, g: File)
    requires |base| == NUM_LEVELS && (forall i :: 0 <= i < NUM_LEVELS ==> base[i] == []) && level < NUM_LEVELS
    requires SamePlace(f, g) && f != g
    ensures var states := Applied(NothingYet(), Edit({}, [(level, f)]));
      var again := Edit({(level, f.number)}, [(level, g)]);
      && Standing(base, states) == {(level, f)} && ApplyEdit({(level, f)}, again) == {(level, g)}
      && Standing(base, Applied(states, again)) == {(level, f)}
  {
    var first, again := Edit({}, [(level, f)]), Edit({(level, f.number)}, [(level, g)]);
    var states := Applied(NothingYet(), first);
    StillSorted(NothingYet(), first);
    hide Applied, SortedFiles, Standing, ApplyEdit;
    OnlyFile(base, level, f, level, f);
    assert SamePlace(f, g) && f in states[level].added;
    assert PlaceTaken(states[level].added, g);
    forall i, h | 0 <= i < NUM_LEVELS
      ensures (i, h) in Standing(base, states) <==> (i, h) == (level, f)
      ensures (i, h) in Standing(base, Applied(states, again)) <==> (i, h) == (level, f)
    {
      OnlyFile(base, level, f, i, h);
      StandsAfter(base, states, again, i, h);
      assert again.added[0] == (level, g);
    }
    SameListing(Standing(base, states), {(level, f)});
    SameListing(Standing(base, Applied(states, again)), {(level, f)});
    Replaced(level, f, g);
  }

  lemma SameListing(a: Listing, b: Listing)
    requires forall i, f :: (i, f) in a <==> (i, f) in b
    ensures a == b
  {
    forall p: (int, File) ensures p in a <==> p in b {
      var (i, f) := p;
      assert (i, f) in a <==> (i, f) in b;
    }
  }

  lemma Replaced(level: nat, f: File, g: File)
    ensures ApplyEdit({(level, f)}, Edit({(level, f.number)}, [(level, g)])) == {(level, g)}
  {
  }

  lemma OnlyFile(base: seq<seq<File>>, level: nat, f: File, i: nat, h: File)
    requires |base| == NUM_LEVELS && i < NUM_LEVELS && base[i] == [] && level < NUM_LEVELS
    ensures var states := Applied(NothingYet(), Edit({}, [(level, f)]));
      && states[level] == LevelState({}, [f])
      && (Held(base, states, i, h) <==> (i, h) == (level, f))
      && ((i, h) in Standing(base, states) <==> (i, h) == (level, f))
  {
    var added := [(level, f)];
    var states := Applied(NothingYet(), Edit({}, added));
    assert added[..0] == [] && states == EnteredAll(Erased(NothingYet(), {}), added);
    assert InsertFile([], f) == [f];
  }

  // ----- a list of edits -----

  ghost predicate AllInRange(edits: seq<Edit>) {
    forall k :: 0 <= k < |edits| ==> LevelsInRange(edits[k].added)
  }

  ghost function AppliedAll(states: seq<LevelState>, edits: seq<Edit>): (r: seq<LevelState>)
    requires |states| == NUM_LEVELS && AllInRange(edits)
    ensures |r| == NUM_LEVELS
  {
    if edits == [] then states else Applied(AppliedAll(states, edits[..|edits| - 1]), edits[|edits| - 1])
  }

  /** Edits that give no number to a level twice make of the base what they mean when installed in turn. */
  lemma {:induction false} BuiltIsMeant(base: seq<seq<File>>, edits: seq<Edit>)
    requires |base| == NUM_LEVELS && AllInRange(edits) && AddedOnce(ListingOf(base), edits)
    ensures var states := AppliedAll(NothingYet(), edits);
      && SortedStates(states) && Within(base, states, Seen(ListingOf(base), edits))
      && Standing(base, states) == ApplyEdits(ListingOf(base), edits)
  {
    if edits == [] {
      NothingStands(base);
    } else {
      var n := |edits| - 1;
      BuiltIsMeant(base, edits[..n]);
      var states, seen := AppliedAll(NothingYet(), edits[..n]), Seen(ListingOf(base), edits[..n]);
      hide Standing, Applied, ApplyEdit, Within, ListingOf, SortedStates, FreshIn;
      FreshLands(base, states, edits[n], seen);
      AppliedIffAllLand(base, states, edits[n]);
      StillSorted(states, edits[n]);
      WithinMore(base, states, edits[n], seen);
    }
  }

  lemma NothingStands(base: seq<seq<File>>)
    requires |base| == NUM_LEVELS
    ensures Standing(base, NothingYet()) == ListingOf(base) && SortedStates(NothingYet())
    ensures Within(base, NothingYet(), ListingOf(base))
  {
    forall p: (int, File) ensures p in Standing(base, NothingYet()) <==> p in ListingOf(base) {
      assert p == (p.0, p.1);
    }
  }

  /** No number is in a base level and in what is added to it. */
  ghost predicate NumbersApart(base: seq<seq<File>>, states: seq<LevelState>)
    requires |base| == |states|
  {
    forall i :: 0 <= i < |base| ==> Differ(base[i], states[i].added)
  }

  ghost predicate Differ(fs: seq<File>, gs: seq<File>) {
    forall f, g :: f in fs && g in gs ==> f.number != g.number
  }

  // ----- writing out -----

  /**
    Merge the surviving base files with the added ones, in key order, dropping deleted
    numbers from both.
   */
  method SaveLevel(base: seq<File>, state: LevelState) returns (r: seq<File>)
    requires SortedFiles(base) && SortedFiles(state.added)
    ensures Differ(base, state.added) ==> SortedFiles(r)
    ensures forall f :: f in r <==> (f in base || f in state.added) && f.number !in state.deleted
  {
    r := [];
    var b := 0;
    for a := 0 to |state.added|
      invariant 0 <= b <= |base|
      invariant Merging(base, b, state.added, a, state.deleted, r)
    {
      while b < |base| && !FileBefore(state.added[a], base[b])
        invariant 0 <= b <= |base|
        invariant Merging(base, b, state.added, a, state.deleted, r)
      {
        r := TakeBase(base, b, state, a, r);
        b := b + 1;
      }
      r := TakeAdded(base, b, state, a, r);
    }
    while b < |base|
      invariant 0 <= b <= |base|
      invariant Merging(base, b, state.added, |state.added|, state.deleted, r)
    {
      r := TakeBase(base, b, state, |state.added|, r);
      b := b + 1;
    }
    assert base[..b] == base && state.added[..|state.added|] == state.added;
  }

  /** `r` merges the first `b` base files and the first `a` added files, and all that follows is after it. */
  ghost predicate Merging(base: seq<File>, b: nat, added: seq<File>, a: nat, deleted: set<nat>, r: seq<File>) {
    && b <= |base| && a <= |added|
    && (forall f :: f in r <==> (f in base[..b] || f in added[..a]) && f.number !in deleted)
    && (Differ(base, added) ==>
      && SortedFiles(r)
      && (forall f :: f in r && b < |base| ==> FileBefore(f, base[b]))
      && forall f :: f in r && a < |added| ==> FileBefore(f, added[a]))
  }

  method TakeBase(base: seq<File>, b: nat, state: LevelState, a: nat, r: seq<File>) returns (r': seq<File>)
    requires b < |base| && a <= |state.added| && SortedFiles(base)
    requires Merging(base, b, state.added, a, state.deleted, r)
    requires a < |state.added| ==> !FileBefore(state.added[a], base[b])
    ensures Merging(base, b + 1, state.added, a, state.deleted, r')
  {
    var f := base[b];
    assert f in base;
    assert base[..b + 1] == base[..b] + [f];
    assert Differ(base, state.added) && a < |state.added| ==>
      state.added[a] in state.added && FileBefore(f, state.added[a]);
    assert b + 1 < |base| ==> FileBefore(f, base[b + 1]);
    hide FileBefore;
    if b + 1 < |base| && Differ(base, state.added) {
      AllBefore(r, f, base[b + 1]);
    }
    r' := if f.number in state.deleted then r else r + [f];
  }

  lemma AllBefore(r: seq<File>, f: File, next: File)
    requires (forall g :: g in r ==> FileBefore(g, f)) && FileBefore(f, next)
    ensures forall g :: g in r ==> FileBefore(g, next)
  {
  }

  method TakeAdded(base: seq<File>, b: nat, state: LevelState, a: nat, r: seq<File>) returns (r': seq<File>)
    requires b <= |base| && a < |state.added| && SortedFiles(state.added)
    requires Merging(base, b, state.added, a, state.deleted, r)
    requires b < |base| ==> FileBefore(state.added[a], base[b])
    ensures Merging(base, b, state.added, a + 1, state.deleted, r')
  {
    var f := state.added[a];
    assert state.added[..a + 1] == state.added[..a] + [f];
    assert a + 1 < |state.added| ==> FileBefore(f, state.added[a + 1]);
    hide FileBefore;
    if a + 1 < |state.added| && Differ(base, state.added) {
      AllBefore(r, f, state.added[a + 1]);
    }
    r' := if f.number in state.deleted then r else r + [f];
  }

  class Builder {
    const base: seq<seq<File>>
    var states: seq<LevelState>

    ghost predicate Valid()
      reads this
    {
      |base| == NUM_LEVELS && SortedLevels(base) && SortedStates(states)
    }

    constructor (base: seq<seq<File>>)
      requires |base| == NUM_LEVELS && SortedLevels(base)
      ensures Valid() && this.base == base && states == NothingYet() && Standing(base, states) == ListingOf(base)
    {
      this.base, states := base, NothingYet();
      NothingStands(base);
    }

    /** Record the deletions of an edit, then its additions, each file in its place unless that is taken. */
    method Apply(edit: Edit)
      requires Valid() && LevelsInRange(edit.added)
      modifies this
      ensures Valid() && states == Applied(old(states), edit)
      ensures Standing(base, states) == ApplyEdit(old(Standing(base, states)), edit) <==>
                AllLand(base, old(states), edit)
    {
      hide SortedFiles, SortedLevels, Standing, ApplyEdit, AllLand;
      AppliedIffAllLand(base, states, edit);
      StillSorted(states, edit);
      states := Erased(states, edit.deleted);
      ghost var erased := states;
      for j := 0 to |edit.added|
        invariant |states| == NUM_LEVELS && states == EnteredAll(erased, edit.added[..j])
      {
        var (level, f) := edit.added[j];
        assert edit.added[..j + 1][..j] == edit.added[..j] && edit.added[..j + 1][j] == edit.added[j];
        states := states[level := Entered(states[level], f)];
      }
      assert edit.added[..|edit.added|] == edit.added;
    }

    /** Write out every level. */
    method SaveTo() returns (levels: seq<seq<File>>)
      requires Valid()
      ensures |levels| == NUM_LEVELS && ListingOf(levels) == Standing(base, states)
      ensures NumbersApart(base, states) ==> SortedLevels(levels)
    {
      levels := [];
      for i := 0 to NUM_LEVELS
        invariant |levels| == i
        invariant NumbersApart(base, states) ==> SortedLevels(levels)
        invariant forall j, f :: 0 <= j < i ==> (f in levels[j] <==> (j, f) in Standing(base, states))
      {
        var level := SaveLevel(base[i], states[i]);
        levels := levels + [level];
      }
      forall p: (int, File) ensures p in ListingOf(levels) <==> p in Standing(base, states) {
        assert p in Standing(base, states) <==> (p.0, p.1) in Standing(base, states);
        assert p in ListingOf(levels) <==> 0 <= p.0 < NUM_LEVELS && p.1 in levels[p.0];
      }
    }
  }

  function NothingYet(): (r: seq<LevelState>)
    ensures |r| == NUM_LEVELS && forall i :: 0 <= i < NUM_LEVELS ==> r[i] == LevelState({}, [])
  {
    seq(NUM_LEVELS, _ => LevelState({}, []))
  }

  /** The version that one edit makes of another. */
  method BuildNext(levels: seq<seq<File>>, edit: Edit) returns (levels': seq<seq<File>>)
    requires |levels| == NUM_LEVELS && SortedLevels(levels) && FreshIn(ListingOf(levels), edit.added)
    ensures |levels'| == NUM_LEVELS && SortedLevels(levels')
    ensures ListingOf(levels') == ApplyEdit(ListingOf(levels), edit)
  {
    var builder := new Builder(levels);
    FreshLands(levels, builder.states, edit, ListingOf(levels));
    builder.Apply(edit);
    FirstApart(levels, edit);
    levels' := builder.SaveTo();
  }

  lemma FirstApart(levels: seq<seq<File>>, edit: Edit)
    requires |levels| == NUM_LEVELS && FreshIn(ListingOf(levels), edit.added) && LevelsInRange(edit.added)
    ensures NumbersApart(levels, Applied(NothingYet(), edit))
  {
    forall i | 0 <= i < NUM_LEVELS ensures Differ(levels[i], Applied(NothingYet(), edit)[i].added) {
      EnteredMeans(Erased(NothingYet(), edit.deleted), edit.added, i);
      hide EnteredAll;
      forall f | f in levels[i] ensures (i, f) in ListingOf(levels) {
      }
    }
  }

  lemma {:induction false} AddedOncePrefix(files: Listing, edits: seq<Edit>, n: nat)
    requires n <= |edits| && AddedOnce(files, edits)
    ensures AddedOnce(files, edits[..n])
    decreases |edits|
  {
    if n == |edits| {
      assert edits[..n] == edits;
    } else {
      AddedOncePrefix(files, edits[..|edits| - 1], n);
      assert edits[..|edits| - 1][..n] == edits[..n];
    }
  }

  /** A version, one installed edit after another. */
  ghost predicate InstalledInTurn(versions: seq<seq<seq<File>>>, edits: seq<Edit>) {
    && |versions| == |edits| + 1
    && (forall n :: 0 <= n < |versions| ==> |versions[n]| == NUM_LEVELS && SortedLevels(versions[n]))
    && forall n :: 0 <= n < |edits| ==> ListingOf(versions[n + 1]) == ApplyEdit(ListingOf(versions[n]), edits[n])
  }

  ghost predicate SortedLevels(levels: seq<seq<File>>) {
    forall i :: 0 <= i < |levels| ==> SortedFiles(levels[i])
  }

  lemma {:induction false} InTurnMeans(versions: seq<seq<seq<File>>>, edits: seq<Edit>, n: nat)
    requires InstalledInTurn(versions, edits) && n <= |edits|
    ensures ListingOf(versions[n]) == ApplyEdits(ListingOf(versions[0]), edits[..n])
  {
    if n > 0 {
      InTurnMeans(versions, edits, n - 1);
      assert edits[..n][..n - 1] == edits[..n - 1];
    }
  }

  // ----- why no level gets a file number twice -----

  /** A file moves from a shallower level. */
  ghost predicate TakenDown(files: Listing, edit: Edit, p: (int, File)) {
    exists l :: l < p.0 && (l, p.1) in files && (l, p.1.number) in edit.deleted
  }

  /** What flushes, moves and compactions add: new numbers, or files taken from a shallower level. */
  ghost predicate NewOrMoved(files: Listing, next: nat, next': nat, edit: Edit) {
    && next <= next'
    && (forall p :: p in edit.added ==> 0 <= p.0 < NUM_LEVELS && p.1.number < next')
    && (forall p :: p in edit.added ==> p.1.number >= next || TakenDown(files, edit, p))
    && forall i, j :: 0 <= i < j < |edit.added| ==> edit.added[i].1.number != edit.added[j].1.number
  }

  /** Numbers are in use once, below `next`, and never deeper than they are now. */
  ghost predicate OnlyDeeper(files: Listing, seen: Listing, next: nat) {
    && files <= seen && (forall p :: p in seen ==> p.1.number < next)
    && (forall p, q :: p in files && q in files && p.1.number == q.1.number ==> p == q)
    && forall p, q :: p in seen && q in files && p.1.number == q.1.number ==> p.0 <= q.0
  }

  lemma AddsFresh(files: Listing, seen: Listing, next: nat, next': nat, edit: Edit)
    requires OnlyDeeper(files, seen, next) && NewOrMoved(files, next, next', edit)
    ensures FreshIn(seen, edit.added)
  {
    forall p, q | p in edit.added && q in seen && p.0 == q.0 ensures p.1.number != q.1.number {
      if p.1.number < next {
        var l :| l < p.0 && (l, p.1) in files && (l, p.1.number) in edit.deleted;
      }
    }
  }

  lemma SameNumber(added: seq<(int, File)>, p: (int, File), q: (int, File))
    requires forall i, j :: 0 <= i < j < |added| ==> added[i].1.number != added[j].1.number
    requires p in added && q in added && p.1.number == q.1.number
    ensures p == q
  {
    var i :| 0 <= i < |added| && added[i] == p;
    var j :| 0 <= j < |added| && added[j] == q;
  }

  /** A number that is added and listed after the edit is listed where it was added. */
  lemma AddedIsOnly(files: Listing, seen: Listing, next: nat, next': nat, edit: Edit, p: (int, File), q: (int, File))
    requires OnlyDeeper(files, seen, next) && NewOrMoved(files, next, next', edit)
    requires p in edit.added && q in ApplyEdit(files, edit) && p.1.number == q.1.number
    ensures p == q
  {
    if q in edit.added {
      SameNumber(edit.added, p, q);
    }
  }

  lemma StaysOnlyDeeper(files: Listing, seen: Listing, next: nat, next': nat, edit: Edit)
    requires OnlyDeeper(files, seen, next) && NewOrMoved(files, next, next', edit)
    ensures OnlyDeeper(ApplyEdit(files, edit), seen + Pairs(edit.added), next')
  {
    var after, ever := ApplyEdit(files, edit), seen + Pairs(edit.added);
    forall p, q | p in ever && q in after && p.1.number == q.1.number ensures p.0 <= q.0 {
      if p in edit.added {
        AddedIsOnly(files, seen, next, next', edit, p, q);
      } else if q in edit.added && q.1.number < next {
        var l :| l < q.0 && (l, q.1) in files && (l, q.1.number) in edit.deleted;
      }
    }
    forall p, q | p in after && q in after && p.1.number == q.1.number ensures p == q {
      if p in edit.added {
        AddedIsOnly(files, seen, next, next', edit, p, q);
      } else if q in edit.added {
        AddedIsOnly(files, seen, next, next', edit, q, p);
      }
    }
  }

  /** Edits that add new numbers or move files deeper never give a level the same number twice. */
  lemma {:induction false} NumbersAddedOnce(files: Listing, edits: seq<Edit>, nexts: seq<nat>)
    requires |nexts| == |edits| + 1 && OnlyDeeper(files, files, nexts[0])
    requires forall k :: 0 <= k < |edits| ==>
      NewOrMoved(ApplyEdits(files, edits[..k]), nexts[k], nexts[k + 1], edits[k])
    ensures AddedOnce(files, edits) && OnlyDeeper(ApplyEdits(files, edits), Seen(files, edits), nexts[|edits|])
    decreases |edits|
  {
    hide OnlyDeeper, NewOrMoved, FreshIn, ApplyEdit, Pairs;
    if edits != [] {
      var n := |edits| - 1;
      assert forall k :: 0 <= k < n ==> edits[..n][..k] == edits[..k];
      NumbersAddedOnce(files, edits[..n], nexts[..n + 1]);
      AddsFresh(ApplyEdits(files, edits[..n]), Seen(files, edits[..n]), nexts[n], nexts[n + 1], edits[n]);
      StaysOnlyDeeper(ApplyEdits(files, edits[..n]), Seen(files, edits[..n]), nexts[n], nexts[n + 1], edits[n]);
    }
  }
}
