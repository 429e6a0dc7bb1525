/**
  Choice of the files a compaction reads: the picked file, everything that must travel
  with it, the files of the next level it overlaps, and an optional free growth.
 */
module CompactionInputs {
  import opened Basics
  import opened InternalKeys
  import opened LsmTree

  // Overlap by user key

  /** A range end that is `None` is unbounded. */
  predicate InRange(f: File, begin: Option<UserKey>, end: Option<UserKey>) {
    (begin.None? || f.largest.user >= begin.value) && (end.None? || f.smallest.user <= end.value)
  }

  /** The range of `f` reaches neither below `begin` nor above `end`. */
  predicate Inside(f: File, begin: Option<UserKey>, end: Option<UserKey>) {
    (begin.None? || f.smallest.user >= begin.value) && (end.None? || f.largest.user <= end.value)
  }

  predicate UserOverlap(f: File, g: File) {
    f.largest.user >= g.smallest.user && g.largest.user >= f.smallest.user
  }

  /** The files of `files` that meet a range, in their order. */
  function Overlapping(files: seq<File>, begin: Option<UserKey>, end: Option<UserKey>): (r: seq<File>)
    ensures forall f :: f in r <==> f in files && InRange(f, begin, end)
  {
    if files == [] then []
    else
      var n := |files| - 1;
      assert files == files[..n] + [files[n]];
      Overlapping(files[..n], begin, end) + if InRange(files[n], begin, end) then [files[n]] else []
  }

  lemma OverlappingNone(begin: Option<UserKey>, end: Option<UserKey>)
    ensures Overlapping([], begin, end) == []
  {
  }

  lemma OverlappingSnoc(files: seq<File>, i: nat, begin: Option<UserKey>, end: Option<UserKey>)
    requires i < |files|
    ensures Overlapping(files[..i + 1], begin, end) ==
      Overlapping(files[..i], begin, end) + if InRange(files[i], begin, end) then [files[i]] else []
  {
    assert files[..i + 1][..i] == files[..i];
  }

  ghost predicate Distinct(fs: seq<File>) {
    forall i, j :: 0 <= i < j < |fs| ==> fs[i] != fs[j]
  }

  lemma {:induction false} OverlappingDistinct(files: seq<File>, begin: Option<UserKey>, end: Option<UserKey>)
    requires Distinct(files)
    ensures Distinct(Overlapping(files, begin, end))
  {
    if files != [] {
      var n := |files| - 1;
      OverlappingDistinct(files[..n], begin, end);
      assert files[n] !in files[..n];
    }
  }

  /** A set of files that holds all files meeting the range and all files meeting a member. */
  ghost predicate ClosedUnder(files: seq<File>, c: set<File>, begin: Option<UserKey>, end: Option<UserKey>) {
    && (forall f :: f in files && InRange(f, begin, end) ==> f in c)
    && forall f, g :: f in c && f in files && g in files && UserOverlap(f, g) ==> g in c
  }

  /** No file outside `inputs` shares a user-key range with one inside. */
  ghost predicate OverlapClosed(files: seq<File>, inputs: seq<File>) {
    forall f, g :: f in inputs && g in files && UserOverlap(f, g) ==> g in inputs
  }

  /** `f` starts, with older entries, at the user key where `g` ends. */
  predicate Continues(f: File, g: File) {
    Before(g.largest, f.smallest) && g.largest.user == f.smallest.user
  }

  /** No file left behind starts with an older entry of the last user key of an input. */
  ghost predicate BoundaryClosed(files: seq<File>, inputs: seq<File>) {
    forall f, g :: g in inputs && f in files && Continues(f, g) ==> f in inputs
  }

  /** A continuation left out of `inputs` comes after all of them. */
  ghost predicate OpenOnlyAtEnd(files: seq<File>, inputs: seq<File>) {
    forall f, g, h :: g in inputs && f in files && f !in inputs && Continues(f, g) && h in inputs ==>
      Before(h.largest, f.smallest)
  }

  /** `s` holds the files of `must` and is closed as the inputs of a compaction have to be. */
  ghost predicate Suffices(files: seq<File>, levelZero: bool, must: seq<File>, s: seq<File>) {
    (forall f :: f in must ==> f in s) && BoundaryClosed(files, s) && (levelZero ==> OverlapClosed(files, s))
  }

  /** Nothing is in `r` that the files of `must` do not bring in. */
  ghost predicate Least(files: seq<File>, levelZero: bool, must: seq<File>, r: seq<File>) {
    forall s :: Suffices(files, levelZero, must, s) ==> forall f :: f in r ==> f in s
  }

  lemma LeastOfClosed(files: seq<File>, begin: UserKey, end: UserKey, must: seq<File>, r: seq<File>)
    requires forall c: set<File> :: ClosedUnder(files, c, Some(begin), Some(end)) ==> forall f :: f in r ==> f in c
    requires forall s :: Suffices(files, true, must, s) ==>
      forall f :: f in files && InRange(f, Some(begin), Some(end)) ==> f in s
    ensures Least(files, true, must, r)
  {
    forall s, f | Suffices(files, true, must, s) && f in r ensures f in s {
      var c := set g | g in s;
      assert ClosedUnder(files, c, Some(begin), Some(end));
    }
  }

  // Termination measure of the range expansion

  function CountBelow(files: seq<File>, x: UserKey): (n: nat) {
    if files == [] then 0 else CountBelow(files[1..], x) + if files[0].smallest.user < x then 1 else 0
  }

  function CountAbove(files: seq<File>, x: UserKey): (n: nat) {
    if files == [] then 0 else CountAbove(files[1..], x) + if files[0].largest.user > x then 1 else 0
  }

  lemma {:induction false} CountBelowShrinks(files: seq<File>, x: UserKey, y: UserKey)
    requires y <= x
    ensures CountBelow(files, y) <= CountBelow(files, x)
    ensures (exists f :: f in files && y <= f.smallest.user < x) ==> CountBelow(files, y) < CountBelow(files, x)
  {
    if files != [] {
      CountBelowShrinks(files[1..], x, y);
      assert forall f :: f in files ==> f == files[0] || f in files[1..];
    }
  }

  lemma {:induction false} CountAboveShrinks(files: seq<File>, x: UserKey, y: UserKey)
    requires y >= x
    ensures CountAbove(files, y) <= CountAbove(files, x)
    ensures (exists f :: f in files && y >= f.largest.user > x) ==> CountAbove(files, y) < CountAbove(files, x)
  {
    if files != [] {
      CountAboveShrinks(files[1..], x, y);
      assert forall f :: f in files ==> f == files[0] || f in files[1..];
    }
  }

  function Outside(files: seq<File>, begin: Option<UserKey>, end: Option<UserKey>): (n: nat) {
    (if begin.Some? then CountBelow(files, begin.value) else 0) + if end.Some? then CountAbove(files, end.value) else 0
  }

  /**
    All files of a level that meet a range.  In level 0 the files may overlap each other:
    the range grows and the scan restarts until no chosen file sticks out of it, and the
    result is the least set closed under overlap.
   */
  method GetOverlappingInputs(files: seq<File>, levelZero: bool, begin: Option<UserKey>, end: Option<UserKey>)
    returns (inputs: seq<File>)
    requires ValidFiles(files) && Distinct(files)
    ensures Distinct(inputs) && forall f :: f in inputs ==> f in files
    ensures forall f :: f in files && InRange(f, begin, end) ==> f in inputs
    ensures !levelZero ==> inputs == Overlapping(files, begin, end)
    ensures levelZero ==> ClosedUnder(files, (set f | f in inputs), begin, end)
    ensures levelZero ==>
      forall c: set<File> :: ClosedUnder(files, c, begin, end) ==> forall f :: f in inputs ==> f in c
  {
    WithinAtStart(files, begin, end);
    OverlappingNone(begin, end);
    hide Distinct, WithinClosures, ClosedUnder, ValidFile, CountBelow, CountAbove, Overlapping;
    inputs := [];
    var b, e := begin, end;
    var i := 0;
    while i < |files|
      invariant 0 <= i <= |files|
      invariant b.None? == begin.None? && e.None? == end.None?
      invariant b.Some? ==> b.value <= begin.value
      invariant e.Some? ==> e.value >= end.value
      invariant !levelZero ==> b == begin && e == end
      invariant inputs == Overlapping(files[..i], b, e)
      invariant levelZero ==> forall f :: f in inputs ==> Inside(f, b, e)
      invariant WithinClosures(files, begin, end, b, e)
      decreases Outside(files, b, e), |files| - i
    {
      var f := files[i];
      assert f in files;
      BoundsOrder(f);
      i := i + 1;
      OverlappingSnoc(files, i - 1, b, e);
      if b.Some? && f.largest.user < b.value {
        assert !InRange(f, b, e);
      } else if e.Some? && f.smallest.user > e.value {
        assert !InRange(f, b, e);
      } else {
        assert InRange(f, b, e);
        inputs := inputs + [f];
        if levelZero {
          if b.Some? && f.smallest.user < b.value {
            CountBelowShrinks(files, b.value, f.smallest.user);
            GrowthStaysInClosure(files, begin, end, b, e, f, Some(f.smallest.user), e);
            b := Some(f.smallest.user);
            inputs := [];
            i := 0;
            OverlappingNone(b, e);
          } else if e.Some? && f.largest.user > e.value {
            CountAboveShrinks(files, e.value, f.largest.user);
            GrowthStaysInClosure(files, begin, end, b, e, f, b, Some(f.largest.user));
            e := Some(f.largest.user);
            inputs := [];
            i := 0;
            OverlappingNone(b, e);
          }
        }
      }
    }
    assert files[..|files|] == files;
    OverlappingDistinct(files, b, e);
    if levelZero {
      FixpointIsClosed(files, inputs, begin, end, b, e);
    }
  }

  /** Every file that meets [b, e] belongs to every closed set for the range [begin, end]. */
  ghost predicate WithinClosures(files: seq<File>, begin: Option<UserKey>, end: Option<UserKey>,
                                 b: Option<UserKey>, e: Option<UserKey>)
  {
    forall c: set<File> :: ClosedUnder(files, c, begin, end) ==> forall f :: f in files && InRange(f, b, e) ==> f in c
  }

  lemma WithinAtStart(files: seq<File>, begin: Option<UserKey>, end: Option<UserKey>)
    ensures WithinClosures(files, begin, end, begin, end)
  {
  }

  /** Growing the range to cover a file of the closure brings in only files of the closure. */
  lemma GrowthStaysInClosure(files: seq<File>, begin: Option<UserKey>, end: Option<UserKey>,
                             b: Option<UserKey>, e: Option<UserKey>, f: File, b': Option<UserKey>, e': Option<UserKey>)
    requires ValidFiles(files) && f in files && InRange(f, b, e)
    requires b.None? == b'.None? && e.None? == e'.None?
    requires b'.Some? ==> b' == b || b'.value == f.smallest.user
    requires e'.Some? ==> e' == e || e'.value == f.largest.user
    requires WithinClosures(files, begin, end, b, e)
    ensures WithinClosures(files, begin, end, b', e')
  {
    forall c: set<File>, g | ClosedUnder(files, c, begin, end) && g in files && InRange(g, b', e')
      ensures g in c
    {
      assert f in c;
      BoundsOrder(f);
      BoundsOrder(g);
      assert InRange(g, b, e) || UserOverlap(f, g);
    }
  }

  /** When no chosen file sticks out of the range, the chosen files are closed under overlap. */
  lemma FixpointIsClosed(files: seq<File>, inputs: seq<File>, begin: Option<UserKey>, end: Option<UserKey>,
                         b: Option<UserKey>, e: Option<UserKey>)
    requires ValidFiles(files) && inputs == Overlapping(files, b, e)
    requires b.None? == begin.None? && e.None? == end.None?
    requires b.Some? ==> b.value <= begin.value
    requires e.Some? ==> e.value >= end.value
    requires forall f :: f in inputs ==> Inside(f, b, e)
    requires WithinClosures(files, begin, end, b, e)
    ensures ClosedUnder(files, (set f | f in inputs), begin, end)
    ensures forall c: set<File> :: ClosedUnder(files, c, begin, end) ==> forall f :: f in inputs ==> f in c
  {
  }

  // Range of a set of files

  /** [lo, hi] is the range of user keys the files span. */
  ghost predicate SpanOf(fs: seq<File>, lo: UserKey, hi: UserKey) {
    && (forall f :: f in fs ==> lo <= f.smallest.user && f.largest.user <= hi)
    && (exists f :: f in fs && f.smallest.user == lo)
    && (exists f :: f in fs && f.largest.user == hi)
  }

  /** Smallest and largest internal key over a nonempty list of files. */
  method GetRange(inputs: seq<File>) returns (smallest: InternalKey, largest: InternalKey)
    requires |inputs| > 0 && ValidFiles(inputs)
    ensures SpanOf(inputs, smallest.user, largest.user)
    ensures forall f :: f in inputs ==> !Before(f.smallest, smallest) && !Before(largest, f.largest)
    ensures exists f :: f in inputs && f.largest == largest
  {
    smallest, largest := inputs[0].smallest, inputs[0].largest;
    for i := 1 to |inputs|
      invariant forall f :: f in inputs[..i] ==> !Before(f.smallest, smallest) && !Before(largest, f.largest)
      invariant exists f :: f in inputs[..i] && f.smallest == smallest
      invariant exists f :: f in inputs[..i] && f.largest == largest
    {
      var f := inputs[i];
      assert inputs[..i + 1] == inputs[..i] + [f];
      if Before(f.smallest, smallest) {
        smallest := f.smallest;
      }
      if Before(largest, f.largest) {
        largest := f.largest;
      }
      assert f in inputs[..i + 1];
    }
    assert inputs[..|inputs|] == inputs;
  }

  // Boundary files

  function CountAfter(files: seq<File>, key: InternalKey): (n: nat) {
    if files == [] then 0 else CountAfter(files[1..], key) + if Before(key, files[0].smallest) then 1 else 0
  }

  lemma {:induction false} CountAfterShrinks(files: seq<File>, x: InternalKey, y: InternalKey)
    requires x == y || Before(x, y)
    ensures CountAfter(files, y) <= CountAfter(files, x)
    ensures (exists f :: f in files && Before(x, f.smallest) && !Before(y, f.smallest)) ==>
      CountAfter(files, y) < CountAfter(files, x)
  {
    if files != [] {
      CountAfterShrinks(files[1..], x, y);
      assert forall f :: f in files ==> f == files[0] || f in files[1..];
    }
  }

  /** The first file of the level that continues the user key of `largest` with older entries. */
  method FindSmallestBoundaryFile(files: seq<File>, largest: InternalKey) returns (found: Option<File>)
    ensures found.None? ==> forall f :: f in files ==> !(Before(largest, f.smallest) && f.smallest.user == largest.user)
    ensures found.Some? ==>
              && found.value in files && Before(largest, found.value.smallest)
              && found.value.smallest.user == largest.user
              && forall f :: f in files && Before(largest, f.smallest) && f.smallest.user == largest.user ==>
                !Before(f.smallest, found.value.smallest)
  {
    found := None;
    for i := 0 to |files|
      invariant found.None? ==>
        forall f :: f in files[..i] ==> !(Before(largest, f.smallest) && f.smallest.user == largest.user)
      invariant found.Some? ==>
                  && found.value in files && Before(largest, found.value.smallest)
                  && found.value.smallest.user == largest.user
                  && forall f :: f in files[..i] && Before(largest, f.smallest) && f.smallest.user == largest.user ==>
                    !Before(f.smallest, found.value.smallest)
    {
      var f := files[i];
      assert files[..i + 1] == files[..i] + [f];
      if Before(largest, f.smallest) && f.smallest.user == largest.user {
        if found.None? || Before(f.smallest, found.value.smallest) {
          found := Some(f);
        }
      }
    }
    assert files[..|files|] == files;
  }

  /** Where a chain of inputs stands: `largest` is its last key and only files after it may still continue an input. */
  ghost predicate Edge(files: seq<File>, r: seq<File>, largest: InternalKey) {
    && (forall f :: f in r ==> f in files && !Before(largest, f.largest))
    && (exists l :: l in r && l.largest == largest)
    && forall f, g :: g in r && f in files && f !in r && Continues(f, g) ==> Before(largest, f.smallest)
  }

  /** Files closed under overlap have no continuation outside. */
  lemma ClosedHasNoBoundary(files: seq<File>, r: seq<File>, largest: InternalKey, f: File)
    requires ValidFiles(files) && OverlapClosed(files, r) && Edge(files, r, largest) && f in files
    ensures !(Before(largest, f.smallest) && f.smallest.user == largest.user)
  {
    var l :| l in r && l.largest == largest;
    BoundsOrder(f);
    BoundsOrder(l);
    if Before(largest, f.smallest) && f.smallest.user == largest.user {
      assert UserOverlap(l, f);
    }
  }

  /** Appending the first continuation moves the edge past it. */
  lemma EdgeMoves(files: seq<File>, r: seq<File>, largest: InternalKey, b: File)
    requires ValidFiles(files) && AllApart(files) && Edge(files, r, largest)
    requires b in files && Before(largest, b.smallest) && b.smallest.user == largest.user
    requires forall f :: f in files && Before(largest, f.smallest) && f.smallest.user == largest.user ==>
      !Before(f.smallest, b.smallest)
    ensures Edge(files, r + [b], b.largest) && b !in r
  {
    BoundsOrder(b);
    forall f, g | g in r + [b] && f in files && f !in r + [b] && Continues(f, g)
      ensures Before(b.largest, f.smallest)
    {
      if g in r {
        BoundsOrder(f);
        assert Before(largest, f.smallest) && Apart(f, b);
      }
    }
  }

  /** When no file continues the last key, no file continues any input. */
  lemma EdgeIsClosed(files: seq<File>, r: seq<File>, largest: InternalKey)
    requires Edge(files, r, largest)
    requires forall f :: f in files ==> !(Before(largest, f.smallest) && f.smallest.user == largest.user)
    ensures BoundaryClosed(files, r) && forall f :: f in r ==> f in files
  {
  }

  ghost predicate IsLast(fs: seq<File>, k: InternalKey) {
    (exists f :: f in fs && f.largest == k) && forall f :: f in fs ==> !Before(k, f.largest)
  }

  /** `b` is the first file that starts after `k` with the same user key. */
  ghost predicate FirstAfter(files: seq<File>, k: InternalKey, b: File) {
    && b in files && Before(k, b.smallest) && b.smallest.user == k.user
    && forall f :: f in files && Before(k, f.smallest) && f.smallest.user == k.user ==> !Before(f.smallest, b.smallest)
  }

  /** `r` is `inputs` and after it, one by one, the first file that continues the last key so far. */
  ghost predicate Chain(files: seq<File>, inputs: seq<File>, r: seq<File>) {
    inputs <= r && forall j :: |inputs| <= j < |r| ==> ContinuesPrefix(files, r[..j], r[j])
  }

  ghost predicate ContinuesPrefix(files: seq<File>, before: seq<File>, b: File) {
    exists k :: IsLast(before, k) && FirstAfter(files, k, b)
  }

  ghost predicate NoneAfter(files: seq<File>, k: InternalKey) {
    forall f :: f in files ==> !(Before(k, f.smallest) && f.smallest.user == k.user)
  }

  lemma ChainExtends(files: seq<File>, inputs: seq<File>, r: seq<File>, b: File)
    requires Chain(files, inputs, r) && ContinuesPrefix(files, r, b)
    ensures Chain(files, inputs, r + [b])
  {
    hide ContinuesPrefix;
    forall j | |inputs| <= j < |r + [b]| ensures ContinuesPrefix(files, (r + [b])[..j], (r + [b])[j]) {
      if j < |r| {
        assert (r + [b])[..j] == r[..j];
      } else {
        assert (r + [b])[..j] == r;
      }
    }
  }

  lemma ChainShrinks(files: seq<File>, inputs: seq<File>, r: seq<File>)
    requires Chain(files, inputs, r) && |r| > |inputs|
    ensures var n := |r| - 1;
      Chain(files, inputs, r[..n]) && ContinuesPrefix(files, r[..n], r[n]) && r == r[..n] + [r[n]]
  {
    hide ContinuesPrefix;
    var n := |r| - 1;
    forall j | |inputs| <= j < n ensures ContinuesPrefix(files, r[..n][..j], r[..n][j]) {
      assert r[..n][..j] == r[..j];
    }
  }

  /** A file that starts after the last key ends after it, and is new. */
  lemma LastGrows(files: seq<File>, r: seq<File>, k: InternalKey, b: File)
    requires ValidFiles(files) && ValidFiles(r) && IsLast(r, k) && FirstAfter(files, k, b)
    ensures IsLast(r + [b], b.largest) && ValidFiles(r + [b]) && (Distinct(r) ==> Distinct(r + [b]))
  {
    BoundsOrder(b);
    forall f | f in r ensures f != b && !Before(b.largest, f.largest) {
      BoundsOrder(f);
    }
    hide ValidFile, Before;
    assert b in r + [b];
  }

  /** A chain from inputs that are open at most at their end leaves nothing behind that continues an input. */
  lemma {:induction false} ChainEdge(files: seq<File>, inputs: seq<File>, r: seq<File>, k: InternalKey)
    requires ValidFiles(files) && inputs != [] && Chain(files, inputs, r) && IsLast(r, k)
    requires forall f :: f in inputs ==> f in files
    requires OverlapClosed(files, inputs) || (AllApart(files) && OpenOnlyAtEnd(files, inputs))
    ensures Edge(files, r, k) && (OverlapClosed(files, inputs) ==> r == inputs)
    decreases |r|
  {
    assert |inputs| <= |r|;
    hide Edge, Chain, OpenOnlyAtEnd, OverlapClosed, IsLast, FirstAfter, ValidFiles, AllApart;
    if |r| == |inputs| {
      ChainIsInputs(files, inputs, r);
      LastOf(inputs, k);
      EdgeStarts(files, inputs, k);
    } else {
      ChainShrinks(files, inputs, r);
      var n := |r| - 1;
      var before :| IsLast(r[..n], before) && FirstAfter(files, before, r[n]);
      ChainEdge(files, inputs, r[..n], before);
      LastAfter(files, r[..n], before, r[n], k);
      FirstMeans(files, before, r[n]);
      if OverlapClosed(files, inputs) {
        ClosedHasNoBoundary(files, inputs, before, r[n]);
      } else {
        EdgeMoves(files, r[..n], before, r[n]);
      }
    }
  }

  lemma ChainIsInputs(files: seq<File>, inputs: seq<File>, r: seq<File>)
    requires Chain(files, inputs, r) && |r| == |inputs|
    ensures r == inputs
  {
  }

  lemma LastOf(fs: seq<File>, k: InternalKey)
    requires IsLast(fs, k)
    ensures (exists f :: f in fs && f.largest == k) && forall f :: f in fs ==> !Before(k, f.largest)
  {
  }

  lemma FirstMeans(files: seq<File>, k: InternalKey, b: File)
    requires FirstAfter(files, k, b)
    ensures b in files && Before(k, b.smallest) && b.smallest.user == k.user
    ensures forall f :: f in files && Before(k, f.smallest) && f.smallest.user == k.user ==>
      !Before(f.smallest, b.smallest)
  {
  }

  lemma LastAfter(files: seq<File>, r: seq<File>, before: InternalKey, b: File, k: InternalKey)
    requires ValidFiles(files) && IsLast(r, before) && FirstAfter(files, before, b) && IsLast(r + [b], k)
    ensures k == b.largest
  {
    BoundsOrder(b);
    var f :| f in r + [b] && f.largest == k;
    assert b in r + [b];
  }

  /**
    Extend `inputs` by the chain of files that continue its last user key, so that no file
    left in the level starts with older entries of that key.
   */
  method AddBoundaryInputs(files: seq<File>, inputs: seq<File>) returns (r: seq<File>)
    requires ValidFiles(files) && ValidFiles(inputs)
    ensures Chain(files, inputs, r) && (inputs == [] ==> r == [])
    ensures inputs != [] ==> exists k :: IsLast(r, k) && NoneAfter(files, k)
    ensures Distinct(inputs) ==> Distinct(r)
  {
    hide Chain, IsLast, Distinct;
    r := inputs;
    ChainBegins(files, inputs);
    if inputs == [] {
      return;
    }
    var _, largest := GetRange(inputs);
    ItIsLast(inputs, largest);
    var searching := true;
    while searching
      invariant ValidFiles(r) && Chain(files, inputs, r) && IsLast(r, largest) && (Distinct(inputs) ==> Distinct(r))
      invariant !searching ==> NoneAfter(files, largest)
      decreases searching, CountAfter(files, largest)
    {
      var boundary := FindSmallestBoundaryFile(files, largest);
      if boundary.Some? {
        var f := boundary.value;
        BoundsOrder(f);
        CountAfterShrinks(files, largest, f.largest);
        LastGrows(files, r, largest, f);
        assert ContinuesPrefix(files, r, f);
        ChainExtends(files, inputs, r, f);
        r := r + [f];
        largest := f.largest;
      } else {
        searching := false;
      }
    }
  }

  /** A chain behind files that have to be taken holds only files that have to be taken. */
  lemma {:induction false} ChainIsLeast(files: seq<File>, levelZero: bool, must: seq<File>, inputs: seq<File>,
      r: seq<File>)
    requires Least(files, levelZero, must, inputs) && Chain(files, inputs, r)
    ensures Least(files, levelZero, must, r)
    decreases |r|
  {
    if |r| > |inputs| {
      var n := |r| - 1;
      ChainShrinks(files, inputs, r);
      ChainIsLeast(files, levelZero, must, inputs, r[..n]);
      assert ContinuesPrefix(files, r[..n], r[n]) && r == r[..n] + [r[n]];
      hide ContinuesPrefix, Chain;
      forall s, f | Suffices(files, levelZero, must, s) && f in r ensures f in s {
        NextIsNeeded(files, s, r[..n], r[n]);
      }
    }
  }

  lemma NextIsNeeded(files: seq<File>, s: seq<File>, before: seq<File>, b: File)
    requires BoundaryClosed(files, s) && ContinuesPrefix(files, before, b) && forall g :: g in before ==> g in s
    ensures b in s
  {
    var k :| IsLast(before, k) && FirstAfter(files, k, b);
    var g :| g in before && g.largest == k;
    assert Continues(b, g);
  }

  lemma ChainBegins(files: seq<File>, inputs: seq<File>)
    ensures Chain(files, inputs, inputs)
  {
  }

  lemma ItIsLast(fs: seq<File>, k: InternalKey)
    requires (exists f :: f in fs && f.largest == k) && forall f :: f in fs ==> !Before(k, f.largest)
    ensures IsLast(fs, k)
  {
  }

  /** What the chain means for a selection: the inputs are closed at their boundaries. */
  lemma ChainCloses(files: seq<File>, inputs: seq<File>, r: seq<File>)
    requires ValidFiles(files) && inputs != [] && Chain(files, inputs, r)
    requires (forall f :: f in inputs ==> f in files) && exists k :: IsLast(r, k) && NoneAfter(files, k)
    requires OverlapClosed(files, inputs) || (AllApart(files) && OpenOnlyAtEnd(files, inputs))
    ensures BoundaryClosed(files, r) && inputs <= r && (forall f :: f in r ==> f in files)
    ensures OverlapClosed(files, inputs) ==> r == inputs
  {
    var k :| IsLast(r, k) && NoneAfter(files, k);
    ChainEdge(files, inputs, r, k);
    EdgeIsClosed(files, r, k);
  }

  lemma EdgeStarts(files: seq<File>, inputs: seq<File>, largest: InternalKey)
    requires ValidFiles(files)
    requires forall f :: f in inputs ==> f in files && !Before(largest, f.largest)
    requires exists f :: f in inputs && f.largest == largest
    requires OverlapClosed(files, inputs) || (AllApart(files) && OpenOnlyAtEnd(files, inputs))
    ensures Edge(files, inputs, largest)
  {
    forall f, g | g in inputs && f in files && f !in inputs && Continues(f, g)
      ensures Before(largest, f.smallest)
    {
      BoundsOrder(f);
      BoundsOrder(g);
      if OverlapClosed(files, inputs) {
        assert UserOverlap(g, f);
      }
    }
  }

  // The whole selection

  /** Files a compaction of `level` reads, with the user-key range of its upper inputs. */
  datatype Inputs = Inputs(level: nat, inputs0: seq<File>, inputs1: seq<File>, lo: UserKey, hi: UserKey)

  /** What the selection promises to the merge that follows. */
  ghost predicate Selected(levels: seq<seq<File>>, c: Inputs) {
    && c.level + 1 < |levels| && |c.inputs0| > 0
    && Distinct(c.inputs0) && (forall f :: f in c.inputs0 ==> f in levels[c.level])
    && SpanOf(c.inputs0, c.lo, c.hi)
    && (c.level == 0 ==> OverlapClosed(levels[0], c.inputs0))
    && BoundaryClosed(levels[c.level], c.inputs0)
    && c.inputs1 == Overlapping(levels[c.level + 1], Some(c.lo), Some(c.hi))
  }

  function TotalFileSize(fs: seq<File>): (n: nat) {
    if fs == [] then 0 else fs[0].size + TotalFileSize(fs[1..])
  }

  /** Files chosen by a range are cut open only after the last of them. */
  lemma RangeOpensOnlyAtEnd(files: seq<File>, inputs: seq<File>, begin: Option<UserKey>, end: Option<UserKey>)
    requires ValidFiles(files) && AllApart(files) && inputs == Overlapping(files, begin, end)
    ensures OpenOnlyAtEnd(files, inputs)
  {
    forall f, g, h | g in inputs && f in files && f !in inputs && Continues(f, g) && h in inputs
      ensures Before(h.largest, f.smallest)
    {
      BoundsOrder(f);
      BoundsOrder(g);
      BoundsOrder(h);
      assert Apart(f, h);
    }
  }

  /** A wider range chooses at least as many files, and the same ones if as many. */
  lemma {:induction false} WiderRange(files: seq<File>, lo: UserKey, hi: UserKey, lo': UserKey, hi': UserKey)
    requires lo' <= lo && hi <= hi'
    ensures |Overlapping(files, Some(lo), Some(hi))| <= |Overlapping(files, Some(lo'), Some(hi'))|
    ensures |Overlapping(files, Some(lo), Some(hi))| == |Overlapping(files, Some(lo'), Some(hi'))| ==>
              Overlapping(files, Some(lo), Some(hi)) == Overlapping(files, Some(lo'), Some(hi'))
  {
    if files != [] {
      WiderRange(files[..|files| - 1], lo, hi, lo', hi');
    }
  }

  /** Files of `level` that meet [lo, hi], closed for the level: the candidates for growth. */
  method ExpandInputs(files: seq<File>, levelZero: bool, lo: UserKey, hi: UserKey) returns (r: seq<File>)
    requires ValidFiles(files) && Distinct(files) && (!levelZero ==> AllApart(files))
    requires exists f :: f in files && InRange(f, Some(lo), Some(hi))
    ensures forall f :: f in r ==> f in files
    ensures forall f :: f in files && InRange(f, Some(lo), Some(hi)) ==> f in r
    ensures |r| > 0 && Distinct(r) && BoundaryClosed(files, r)
    ensures levelZero ==> OverlapClosed(files, r)
    ensures Least(files, levelZero, Overlapping(files, Some(lo), Some(hi)), r)
  {
    hide Least;
    r := GetOverlappingInputs(files, levelZero, Some(lo), Some(hi));
    RangeIsLeast(files, levelZero, lo, hi, r);
    if levelZero {
      ghost var c := set f | f in r;
      assert OverlapClosed(files, r) by {
        forall f, g | f in r && g in files && UserOverlap(f, g) ensures g in r {
          assert f in c && g in c;
        }
      }
    } else {
      RangeOpensOnlyAtEnd(files, r, Some(lo), Some(hi));
    }
    var picked := r;
    r := AddBoundaryInputs(files, picked);
    ChainCloses(files, picked, r);
    ChainIsLeast(files, levelZero, Overlapping(files, Some(lo), Some(hi)), picked, r);
  }

  lemma RangeIsLeast(files: seq<File>, levelZero: bool, lo: UserKey, hi: UserKey, r: seq<File>)
    requires !levelZero ==> r == Overlapping(files, Some(lo), Some(hi))
    requires levelZero ==>
      forall c: set<File> :: ClosedUnder(files, c, Some(lo), Some(hi)) ==> forall f :: f in r ==> f in c
    ensures Least(files, levelZero, Overlapping(files, Some(lo), Some(hi)), r)
  {
    if levelZero {
      LeastOfClosed(files, lo, hi, Overlapping(files, Some(lo), Some(hi)), r);
    }
  }

  /** What the selection needs of a version. */
  ghost predicate Searchable(levels: seq<seq<File>>) {
    && |levels| == NUM_LEVELS
    && (forall i :: 0 <= i < NUM_LEVELS ==> ValidFiles(levels[i]) && SortedFiles(levels[i]))
    && forall i :: 1 <= i < NUM_LEVELS ==> AllApart(levels[i])
  }

  lemma SortedIsDistinct(fs: seq<File>)
    requires SortedFiles(fs)
    ensures Distinct(fs)
  {
    forall i, j | 0 <= i < j < |fs| ensures fs[i] != fs[j] {
      assert FileBefore(fs[i], fs[j]);
    }
  }

  lemma OrderedIsSearchable(levels: seq<seq<File>>, nextFile: nat)
    requires ValidLevels(levels, nextFile) && OrderedLevels(levels)
    ensures Searchable(levels)
  {
    forall i | 0 <= i < NUM_LEVELS
      ensures ValidFiles(levels[i]) && SortedFiles(levels[i]) && (i >= 1 ==> AllApart(levels[i]))
    {
      LevelOf(levels, nextFile, i);
    }
  }

  /**
    Complete a compaction whose upper inputs have been picked.  `base` records the choice
    before the optional growth: growth adds upper inputs and leaves the lower ones alone.
   */
  method SetupOtherInputs(levels: seq<seq<File>>, level: nat, picked: seq<File>, byteLimit: nat)
    returns (c: Inputs, ghost base: Inputs)
    requires Searchable(levels) && level + 1 < NUM_LEVELS
    requires |picked| > 0 && Distinct(picked) && forall f :: f in picked ==> f in levels[level]
    requires if level == 0 then OverlapClosed(levels[0], picked) else OpenOnlyAtEnd(levels[level], picked)
    ensures c.level == base.level == level && Selected(levels, c) && Selected(levels, base)
    ensures Chain(levels[level], picked, base.inputs0) && IsGrowth(levels, byteLimit, base, c)
  {
    hide SortedFiles, AllApart, BoundaryClosed, OverlapClosed, OpenOnlyAtEnd, SpanOf, IsGrowth, Chain;
    SortedIsDistinct(levels[level + 1]);
    var inputs0 := AddBoundaryInputs(levels[level], picked);
    ChainCloses(levels[level], picked, inputs0);
    var smallest, largest := GetRange(inputs0);
    var inputs1 := GetOverlappingInputs(levels[level + 1], false, Some(smallest.user), Some(largest.user));
    c := Inputs(level, inputs0, inputs1, smallest.user, largest.user);
    base := c;
    NoGrowth(levels, byteLimit, c);
    if inputs1 != [] {
      c := Grow(levels, c, byteLimit);
    }
  }

  /**
    `r` is `c`, or it has more upper inputs and the same lower ones: no more than what the files that
    meet the range of all inputs bring in, and together smaller than the limit.
   */
  ghost predicate IsGrowth(levels: seq<seq<File>>, byteLimit: nat, c: Inputs, r: Inputs)
    requires c.level < |levels|
  {
    || r == c
    || (&& r.level == c.level && r.inputs1 == c.inputs1 && |r.inputs0| > |c.inputs0|
        && (forall f :: f in c.inputs0 ==> f in r.inputs0)
        && TotalFileSize(c.inputs1) + TotalFileSize(r.inputs0) < byteLimit
        && exists lo, hi :: SpanOf(c.inputs0 + c.inputs1, lo, hi) &&
             Least(levels[c.level], c.level == 0, Overlapping(levels[c.level], Some(lo), Some(hi)), r.inputs0))
  }

  lemma NoGrowth(levels: seq<seq<File>>, byteLimit: nat, c: Inputs)
    requires c.level < |levels|
    ensures IsGrowth(levels, byteLimit, c, c)
  {
  }

  lemma ItGrows(levels: seq<seq<File>>, byteLimit: nat, c: Inputs, r: Inputs, lo: UserKey, hi: UserKey)
    requires c.level < |levels| && r.level == c.level && r.inputs1 == c.inputs1 && |r.inputs0| > |c.inputs0|
    requires forall f :: f in c.inputs0 ==> f in r.inputs0
    requires TotalFileSize(c.inputs1) + TotalFileSize(r.inputs0) < byteLimit
    requires SpanOf(c.inputs0 + c.inputs1, lo, hi)
    requires Least(levels[c.level], c.level == 0, Overlapping(levels[c.level], Some(lo), Some(hi)), r.inputs0)
    ensures IsGrowth(levels, byteLimit, c, r)
  {
    hide SpanOf, Least, Overlapping, TotalFileSize;
  }

  /** Take more upper inputs if that costs no further lower input and stays within the limit. */
  method Grow(levels: seq<seq<File>>, c: Inputs, byteLimit: nat) returns (r: Inputs)
    requires Searchable(levels) && Selected(levels, c)
    ensures r.level == c.level && Selected(levels, r) && IsGrowth(levels, byteLimit, c, r)
  {
    hide Least, IsGrowth, TotalFileSize, BoundaryClosed, OverlapClosed, SortedFiles, AllApart, SpanOf, Overlapping;
    r := c;
    NoGrowth(levels, byteLimit, c);
    var files := levels[c.level];
    var allStart, allLimit := GetRange(c.inputs0 + c.inputs1);
    InputsInRange(levels, c, allStart, allLimit);
    SortedIsDistinct(files);
    SortedIsDistinct(levels[c.level + 1]);
    var expanded0 := ExpandInputs(files, c.level == 0, allStart.user, allLimit.user);
    if |expanded0| > |c.inputs0| && TotalFileSize(c.inputs1) + TotalFileSize(expanded0) < byteLimit {
      var newStart, newLimit := GetRange(expanded0);
      var expanded1 := GetOverlappingInputs(levels[c.level + 1], false, Some(newStart.user), Some(newLimit.user));
      if |expanded1| == |c.inputs1| {
        SameLower(levels, c, expanded0, newStart.user, newLimit.user);
        r := Inputs(c.level, expanded0, expanded1, newStart.user, newLimit.user);
        ItGrows(levels, byteLimit, c, r, allStart.user, allLimit.user);
      }
    }
  }

  lemma InputsInRange(levels: seq<seq<File>>, c: Inputs, start: InternalKey, limit: InternalKey)
    requires Searchable(levels) && Selected(levels, c) && SpanOf(c.inputs0 + c.inputs1, start.user, limit.user)
    ensures ValidFiles(c.inputs0 + c.inputs1)
    ensures forall f :: f in c.inputs0 ==> f in levels[c.level] && InRange(f, Some(start.user), Some(limit.user))
    ensures exists f :: f in levels[c.level] && InRange(f, Some(start.user), Some(limit.user))
  {
    forall f | f in c.inputs0 ensures f in levels[c.level] && InRange(f, Some(start.user), Some(limit.user)) {
      assert f in c.inputs0 + c.inputs1;
      BoundsOrder(f);
    }
    assert c.inputs0[0] in c.inputs0;
  }

  /** A wider range of upper inputs that meets as many lower files meets the same ones. */
  lemma SameLower(levels: seq<seq<File>>, c: Inputs, expanded: seq<File>, lo: UserKey, hi: UserKey)
    requires Searchable(levels) && Selected(levels, c) && SpanOf(expanded, lo, hi)
    requires forall f :: f in c.inputs0 ==> f in expanded
    requires |Overlapping(levels[c.level + 1], Some(lo), Some(hi))| == |c.inputs1|
    ensures Overlapping(levels[c.level + 1], Some(lo), Some(hi)) == c.inputs1
  {
    WiderRange(levels[c.level + 1], c.lo, c.hi, lo, hi);
  }

  /** Choose a compaction of `level` that starts from the file at `index`. */
  method PickCompaction(levels: seq<seq<File>>, level: nat, index: nat, byteLimit: nat)
    returns (c: Inputs, ghost base: Inputs)
    requires Searchable(levels) && level + 1 < NUM_LEVELS
    requires index < |levels[level]|
    ensures c.level == base.level == level && Selected(levels, c) && Selected(levels, base)
    ensures levels[level][index] in base.inputs0
    ensures Least(levels[level], level == 0, [levels[level][index]], base.inputs0)
    ensures IsGrowth(levels, byteLimit, base, c)
  {
    hide Least, Chain, IsGrowth, BoundaryClosed, OverlapClosed, SortedFiles, AllApart, Selected;
    var f := levels[level][index];
    assert f in levels[level];
    var picked := [f];
    if level == 0 {
      picked := GetOverlapsOf(levels[0], f);
    } else {
      OneIsLeast(levels[level], f);
    }
    c, base := SetupOtherInputs(levels, level, picked, byteLimit);
    ChainIsLeast(levels[level], level == 0, [f], picked, base.inputs0);
    StartOfChain(levels[level], picked, base.inputs0);
    assert f in picked && picked <= base.inputs0;
  }

  /** The files of level 0 that overlaps lead to from one file. */
  method GetOverlapsOf(files: seq<File>, f: File) returns (picked: seq<File>)
    requires ValidFiles(files) && SortedFiles(files) && f in files
    ensures f in picked && Distinct(picked) && (forall g :: g in picked ==> g in files)
    ensures OverlapClosed(files, picked) && Least(files, true, [f], picked)
  {
    hide Least;
    BoundsOrder(f);
    SortedIsDistinct(files);
    picked := GetOverlappingInputs(files, true, Some(f.smallest.user), Some(f.largest.user));
    AroundIsLeast(files, f, picked);
    ghost var s := set g | g in picked;
    forall g, h | g in picked && h in files && UserOverlap(g, h) ensures h in picked {
      assert g in s && h in s;
    }
  }

  lemma StartOfChain(files: seq<File>, inputs: seq<File>, r: seq<File>)
    requires Chain(files, inputs, r)
    ensures inputs <= r
  {
  }

  lemma OneIsLeast(files: seq<File>, f: File)
    ensures Least(files, false, [f], [f])
  {
    assert f in [f];
  }

  lemma AroundIsLeast(files: seq<File>, f: File, r: seq<File>)
    requires ValidFile(f) && f in files
    requires forall c: set<File> ::
      ClosedUnder(files, c, Some(f.smallest.user), Some(f.largest.user)) ==> forall g :: g in r ==> g in c
    ensures Least(files, true, [f], r)
  {
    assert f in [f];
    LeastOfClosed(files, f.smallest.user, f.largest.user, [f], r);
  }
}
