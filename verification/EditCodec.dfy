/**
  The bytes of a version edit, as they go into the manifest: tagged items that are written in one
  order and read in any.
 */
module EditCodec {
  import opened Basics
  import opened Coding
  import opened LsmTree

  /** One tagged item of an edit. */
  datatype Item =
    | Comparator(name: seq<Byte>)
    | LogNumber(n: nat)
    | NextFileNumber(n: nat)
    | LastSequence(n: nat)
    | PrevLogNumber(n: nat)
    | CompactPointer(level: nat, key: seq<Byte>)
    | DeletedFile(level: nat, number: nat)
    | NewFile(level: nat, number: nat, size: nat, smallest: seq<Byte>, largest: seq<Byte>)

  function TagOf(i: Item): nat {
    match i
    case Comparator(_) => 1
    case LogNumber(_) => 2
    case NextFileNumber(_) => 3
    case LastSequence(_) => 4
    case CompactPointer(_, _) => 5
    case DeletedFile(_, _) => 6
    case NewFile(_, _, _, _, _) => 7
    case PrevLogNumber(_) => 9
  }

  /** Numbers and lengths in the ranges of their C types, and a level that exists. */
  predicate ItemOk(i: Item) {
    match i
    case Comparator(name) => |name| < TwoTo32
    case LogNumber(n) => n < TwoTo64
    case NextFileNumber(n) => n < TwoTo64
    case LastSequence(n) => n < TwoTo64
    case PrevLogNumber(n) => n < TwoTo64
    case CompactPointer(level, key) => level < NUM_LEVELS && |key| < TwoTo32
    case DeletedFile(level, number) => level < NUM_LEVELS && number < TwoTo64
    case NewFile(level, number, size, smallest, largest) =>
      level < NUM_LEVELS && number < TwoTo64 && size < TwoTo64 && |smallest| < TwoTo32 && |largest| < TwoTo32
  }

  function BodyBytes(i: Item): (r: seq<Byte>) {
    match i
    case Comparator(name) => Slice(name)
    case LogNumber(n) => Varint(n)
    case NextFileNumber(n) => Varint(n)
    case LastSequence(n) => Varint(n)
    case PrevLogNumber(n) => Varint(n)
    case CompactPointer(level, key) => Varint(level) + Slice(key)
    case DeletedFile(level, number) => Varint(level) + Varint(number)
    case NewFile(level, number, size, smallest, largest) =>
      Varint(level) + (Varint(number) + (Varint(size) + (Slice(smallest) + Slice(largest))))
  }

  function ItemsBytes(items: seq<Item>): (r: seq<Byte>) {
    if items == [] then [] else Varint(TagOf(items[0])) + BodyBytes(items[0]) + ItemsBytes(items[1..])
  }

  // ----- reading -----

  function GetLevel(s: seq<Byte>): (r: Read<nat>)
    ensures r.Got? ==> |r.rest| < |s| && r.value < NUM_LEVELS
  {
    var v := GetVarint32(s, 0, 0);
    if v.Got? && v.value < NUM_LEVELS then v else Fail
  }

  /** A file is added to a level that exists. */
  predicate LevelExists(i: Item) {
    i.NewFile? ==> i.level < NUM_LEVELS
  }

  function GetItem(tag: nat, s: seq<Byte>): (r: Read<Item>)
    ensures r.Got? ==> |r.rest| < |s| && LevelExists(r.value)
  {
    if tag == 1 then
      var name := GetSlice(s);
      if name.Got? then Got(Comparator(name.value), name.rest) else Fail
    else if tag == 2 || tag == 3 || tag == 4 || tag == 9 then
      var n := ReadVarint(s, 0, 0);
      if n.Fail? then Fail
      else Got(if tag == 2 then LogNumber(n.value) else if tag == 3 then NextFileNumber(n.value)
               else if tag == 4 then LastSequence(n.value) else PrevLogNumber(n.value), n.rest)
    else if tag == 5 then
      var level := GetLevel(s);
      if level.Fail? then Fail
      else
        var key := GetSlice(level.rest);
        if key.Got? then Got(CompactPointer(level.value, key.value), key.rest) else Fail
    else if tag == 6 then
      var level := GetLevel(s);
      if level.Fail? then Fail
      else
        var number := ReadVarint(level.rest, 0, 0);
        if number.Got? then Got(DeletedFile(level.value, number.value), number.rest) else Fail
    else if tag == 7 then GetNewFile(s)
    else Fail
  }

  function GetNewFile(s: seq<Byte>): (r: Read<Item>)
    ensures r.Got? ==> |r.rest| < |s| && LevelExists(r.value)
  {
    var level := GetLevel(s);
    if level.Fail? then Fail
    else
      var number := ReadVarint(level.rest, 0, 0);
      if number.Fail? then Fail
      else
        var size := ReadVarint(number.rest, 0, 0);
        if size.Fail? then Fail
        else
          var smallest := GetSlice(size.rest);
          if smallest.Fail? then Fail
          else
            var largest := GetSlice(smallest.rest);
            if largest.Fail? then Fail
            else Got(NewFile(level.value, number.value, size.value, smallest.value, largest.value), largest.rest)
  }

  /** All items, or nothing if one of them or the end of the input is malformed. */
  function GetItems(s: seq<Byte>): (r: Option<seq<Item>>)
    ensures r.Some? ==> forall i :: i in r.value ==> LevelExists(i)
    decreases |s|
  {
    if s == [] then Some([])
    else
      var tag := GetVarint32(s, 0, 0);
      if tag.Fail? then None
      else
        var item := GetItem(tag.value, tag.rest);
        if item.Fail? then None
        else
          var more := GetItems(item.rest);
          if more.Some? then Some([item.value] + more.value) else None
  }

  // ----- round trip of items -----

  lemma LevelReads(level: nat, rest: seq<Byte>)
    requires level < NUM_LEVELS
    ensures GetLevel(Varint(level) + rest) == Got(level, rest)
  {
    hide GetVarint32, Varint;
    GetVarint32RoundTrip(level, rest);
  }

  lemma NewFileReads(i: Item, rest: seq<Byte>)
    requires i.NewFile? && ItemOk(i)
    ensures GetNewFile(BodyBytes(i) + rest) == Got(i, rest)
  {
    hide GetVarint32, ReadVarint, Varint, GetSlice, GetLevel, Slice;
    var d := Slice(i.largest) + rest;
    var c := Slice(i.smallest) + d;
    var b := Varint(i.size) + c;
    var a := Varint(i.number) + b;
    assert BodyBytes(i) + rest == Varint(i.level) + a;
    LevelReads(i.level, a);
    VarintRoundTrip(i.number, b);
    VarintRoundTrip(i.size, c);
    SliceReads(i.smallest, d);
    SliceReads(i.largest, rest);
  }

  lemma ItemReads(i: Item, rest: seq<Byte>)
    requires ItemOk(i)
    ensures GetItem(TagOf(i), BodyBytes(i) + rest) == Got(i, rest)
  {
    hide GetVarint32, ReadVarint, Varint, GetSlice, GetLevel, Slice, GetNewFile;
    match i {
      case Comparator(name) => SliceReads(name, rest);
      case LogNumber(n) => VarintRoundTrip(n, rest);
      case NextFileNumber(n) => VarintRoundTrip(n, rest);
      case LastSequence(n) => VarintRoundTrip(n, rest);
      case PrevLogNumber(n) => VarintRoundTrip(n, rest);
      case CompactPointer(level, key) =>
        assert BodyBytes(i) + rest == Varint(level) + (Slice(key) + rest);
        LevelReads(level, Slice(key) + rest);
        SliceReads(key, rest);
      case DeletedFile(level, number) =>
        assert BodyBytes(i) + rest == Varint(level) + (Varint(number) + rest);
        LevelReads(level, Varint(number) + rest);
        VarintRoundTrip(number, rest);
      case NewFile(_, _, _, _, _) => NewFileReads(i, rest);
    }
  }

  lemma {:induction false} ItemsRoundTrip(items: seq<Item>)
    requires forall i :: i in items ==> ItemOk(i)
    ensures GetItems(ItemsBytes(items)) == Some(items)
  {
    hide *;
    if items == [] {
      NoItems();
    } else {
      var i, rest := items[0], ItemsBytes(items[1..]);
      assert i in items && forall j :: j in items[1..] ==> j in items;
      ItemsRoundTrip(items[1..]);
      FirstItem(items);
      GetVarint32RoundTrip(TagOf(i), BodyBytes(i) + rest);
      ItemReads(i, rest);
      GetItemsStep(ItemsBytes(items), TagOf(i), BodyBytes(i) + rest, i, rest);
      assert [i] + items[1..] == items;
    }
  }

  lemma NoItems()
    ensures GetItems(ItemsBytes([])) == Some([])
  {
  }

  lemma FirstItem(items: seq<Item>)
    requires items != []
    ensures ItemsBytes(items) == Varint(TagOf(items[0])) + (BodyBytes(items[0]) + ItemsBytes(items[1..]))
    ensures TagOf(items[0]) < TwoTo32
  {
    hide Varint, BodyBytes;
    var a, b, c := Varint(TagOf(items[0])), BodyBytes(items[0]), ItemsBytes(items[1..]);
    assert a + b + c == a + (b + c);
  }

  lemma GetItemsStep(s: seq<Byte>, tag: nat, body: seq<Byte>, i: Item, rest: seq<Byte>)
    requires GetVarint32(s, 0, 0) == Got(tag, body) && GetItem(tag, body) == Got(i, rest)
    ensures GetItems(s) == if GetItems(rest).Some? then Some([i] + GetItems(rest).value) else None
  {
    hide GetVarint32, GetItem;
  }

  // ----- edits -----

  type FileAt = (nat, nat)

  predicate FileLess(a: FileAt, b: FileAt) {
    a.0 < b.0 || (a.0 == b.0 && a.1 < b.1)
  }

  /** An edit; the set of deleted files is listed in order. */
  datatype Edit = Edit(comparator: Option<seq<Byte>>, logNumber: Option<nat>, prevLogNumber: Option<nat>,
                       nextFileNumber: Option<nat>, lastSequence: Option<nat>,
                       compactPointers: seq<(nat, seq<Byte>)>, deletedFiles: seq<FileAt>, newFiles: seq<Item>)

  predicate InOrder(fs: seq<FileAt>) {
    forall i, j :: 0 <= i < j < |fs| ==> FileLess(fs[i], fs[j])
  }

  ghost predicate EditOk(e: Edit) {
    && InOrder(e.deletedFiles) && (forall i :: i in e.newFiles ==> i.NewFile?)
    && forall i :: i in Items(e) ==> ItemOk(i)
  }

  function Name(e: Edit): (r: seq<Item>) {
    if e.comparator.Some? then [Comparator(e.comparator.value)] else []
  }

  function LogNumbers(e: Edit): (r: seq<Item>) {
    (if e.logNumber.Some? then [LogNumber(e.logNumber.value)] else [])
    + (if e.prevLogNumber.Some? then [PrevLogNumber(e.prevLogNumber.value)] else [])
  }

  function Counters(e: Edit): (r: seq<Item>) {
    (if e.nextFileNumber.Some? then [NextFileNumber(e.nextFileNumber.value)] else [])
    + (if e.lastSequence.Some? then [LastSequence(e.lastSequence.value)] else [])
  }

  function Scalars(e: Edit): (r: seq<Item>) {
    Name(e) + LogNumbers(e) + Counters(e)
  }

  function Pointers(ps: seq<(nat, seq<Byte>)>): (r: seq<Item>)
    ensures |r| == |ps| && forall i :: 0 <= i < |ps| ==> r[i] == CompactPointer(ps[i].0, ps[i].1)
  {
    seq(|ps|, (i: int) requires 0 <= i < |ps| => CompactPointer(ps[i].0, ps[i].1))
  }

  function Deletions(fs: seq<FileAt>): (r: seq<Item>)
    ensures |r| == |fs| && forall i :: 0 <= i < |fs| ==> r[i] == DeletedFile(fs[i].0, fs[i].1)
  {
    seq(|fs|, (i: int) requires 0 <= i < |fs| => DeletedFile(fs[i].0, fs[i].1))
  }

  /** The items of an edit in the order in which they are written. */
  function Items(e: Edit): (r: seq<Item>) {
    Scalars(e) + Pointers(e.compactPointers) + Deletions(e.deletedFiles) + e.newFiles
  }

  function SortedInsert(fs: seq<FileAt>, f: FileAt): (r: seq<FileAt>) {
    if fs == [] || FileLess(f, fs[0]) then [f] + fs
    else if f == fs[0] then fs
    else [fs[0]] + SortedInsert(fs[1..], f)
  }

  /** What reading an item does to an edit. */
  function Apply(e: Edit, i: Item): (r: Edit) {
    match i
    case Comparator(name) => e.(comparator := Some(name))
    case LogNumber(n) => e.(logNumber := Some(n))
    case NextFileNumber(n) => e.(nextFileNumber := Some(n))
    case LastSequence(n) => e.(lastSequence := Some(n))
    case PrevLogNumber(n) => e.(prevLogNumber := Some(n))
    case CompactPointer(level, key) => e.(compactPointers := e.compactPointers + [(level, key)])
    case DeletedFile(level, number) => e.(deletedFiles := SortedInsert(e.deletedFiles, (level, number)))
    case NewFile(_, _, _, _, _) => e.(newFiles := e.newFiles + [i])
  }

  function ApplyAll(e: Edit, items: seq<Item>): (r: Edit)
    decreases |items|
  {
    if items == [] then e else ApplyAll(Apply(e, items[0]), items[1..])
  }

  /** Clearing an edit forgets everything except its compaction pointers. */
  function Cleared(e: Edit): Edit {
    Edit(None, None, None, None, None, e.compactPointers, [], [])
  }

  lemma {:induction false} ApplyConcat(e: Edit, a: seq<Item>, b: seq<Item>)
    ensures ApplyAll(e, a + b) == ApplyAll(ApplyAll(e, a), b)
    decreases |a|
  {
    if a == [] {
      assert a + b == b;
    } else {
      assert (a + b)[1..] == a[1..] + b;
      ApplyConcat(Apply(e, a[0]), a[1..], b);
    }
  }

  lemma {:induction false} ApplyPointers(e: Edit, ps: seq<(nat, seq<Byte>)>)
    ensures ApplyAll(e, Pointers(ps)) == e.(compactPointers := e.compactPointers + ps)
    decreases |ps|
  {
    if ps == [] {
      assert e.compactPointers + ps == e.compactPointers;
    } else {
      assert Pointers(ps)[1..] == Pointers(ps[1..]);
      ApplyPointers(Apply(e, Pointers(ps)[0]), ps[1..]);
      assert e.compactPointers + [ps[0]] + ps[1..] == e.compactPointers + ps;
    }
  }

  lemma {:induction false} InsertLast(fs: seq<FileAt>, f: FileAt)
    requires forall i :: 0 <= i < |fs| ==> FileLess(fs[i], f)
    ensures SortedInsert(fs, f) == fs + [f]
  {
    if fs != [] {
      InsertLast(fs[1..], f);
      assert [fs[0]] + (fs[1..] + [f]) == fs + [f];
    }
  }

  lemma {:induction false} ApplyDeletions(e: Edit, fs: seq<FileAt>)
    requires InOrder(e.deletedFiles + fs)
    ensures ApplyAll(e, Deletions(fs)) == e.(deletedFiles := e.deletedFiles + fs)
    decreases |fs|
  {
    if fs == [] {
      assert e.deletedFiles + fs == e.deletedFiles;
    } else {
      var all := e.deletedFiles + fs;
      assert Deletions(fs)[1..] == Deletions(fs[1..]);
      forall i | 0 <= i < |e.deletedFiles| ensures FileLess(e.deletedFiles[i], fs[0]) {
        assert FileLess(all[i], all[|e.deletedFiles|]);
      }
      InsertLast(e.deletedFiles, fs[0]);
      assert e.deletedFiles + [fs[0]] + fs[1..] == all;
      ApplyDeletions(Apply(e, Deletions(fs)[0]), fs[1..]);
    }
  }

  lemma {:induction false} ApplyNewFiles(e: Edit, items: seq<Item>)
    requires forall i :: i in items ==> i.NewFile?
    ensures ApplyAll(e, items) == e.(newFiles := e.newFiles + items)
    decreases |items|
  {
    if items == [] {
      assert e.newFiles + items == e.newFiles;
    } else {
      assert items[0].NewFile?;
      ApplyNewFiles(Apply(e, items[0]), items[1..]);
      assert e.newFiles + [items[0]] + items[1..] == e.newFiles + items;
    }
  }

  lemma ApplyUpToTwo(e: Edit, items: seq<Item>)
    requires |items| <= 2
    ensures ApplyAll(e, items) ==
      if items == [] then e else if |items| == 1 then Apply(e, items[0]) else Apply(Apply(e, items[0]), items[1])
  {
    hide Apply;
    if |items| == 1 {
      assert items[1..] == [];
    } else if |items| == 2 {
      var one, rest := Apply(e, items[0]), items[1..];
      assert rest[0] == items[1] && rest[1..] == [];
      assert ApplyAll(one, rest) == ApplyAll(Apply(one, rest[0]), []);
    }
  }

  lemma ApplyName(e: Edit, x: Edit)
    requires e.comparator.None?
    ensures ApplyAll(e, Name(x)) == e.(comparator := x.comparator)
  {
    ApplyUpToTwo(e, Name(x));
    hide ApplyAll;
  }

  lemma ApplyLogNumbers(e: Edit, x: Edit)
    requires e.logNumber.None? && e.prevLogNumber.None?
    ensures ApplyAll(e, LogNumbers(x)) == e.(logNumber := x.logNumber, prevLogNumber := x.prevLogNumber)
  {
    ApplyUpToTwo(e, LogNumbers(x));
    hide ApplyAll;
  }

  lemma ApplyCounters(e: Edit, x: Edit)
    requires e.nextFileNumber.None? && e.lastSequence.None?
    ensures ApplyAll(e, Counters(x)) == e.(nextFileNumber := x.nextFileNumber, lastSequence := x.lastSequence)
  {
    ApplyUpToTwo(e, Counters(x));
    hide ApplyAll;
  }

  lemma ApplyScalars(e: Edit, x: Edit)
    requires e == Cleared(e)
    ensures ApplyAll(e, Scalars(x)) ==
      e.(comparator := x.comparator, logNumber := x.logNumber, prevLogNumber := x.prevLogNumber,
         nextFileNumber := x.nextFileNumber, lastSequence := x.lastSequence)
  {
    hide ApplyAll, Name, LogNumbers, Counters;
    ApplyConcat(e, Name(x) + LogNumbers(x), Counters(x));
    ApplyConcat(e, Name(x), LogNumbers(x));
    ApplyName(e, x);
    var one := ApplyAll(e, Name(x));
    ApplyLogNumbers(one, x);
    ApplyCounters(ApplyAll(one, LogNumbers(x)), x);
  }

  /**
    Reading an edit back into another one gives the edit, with the compaction pointers that
    were there before in front of its own.
   */
  lemma ReadBack(e: Edit, into: Edit)
    requires EditOk(e)
    ensures ApplyAll(Cleared(into), Items(e)) == e.(compactPointers := into.compactPointers + e.compactPointers)
  {
    hide Scalars, Pointers, Deletions, Apply, ApplyAll, InOrder;
    var a, b, c, d := Scalars(e), Pointers(e.compactPointers), Deletions(e.deletedFiles), e.newFiles;
    var start := Cleared(into);
    ApplyConcat(start, a + b + c, d);
    ApplyConcat(start, a + b, c);
    ApplyConcat(start, a, b);
    ApplyScalars(start, e);
    var one := ApplyAll(start, a);
    ApplyPointers(one, e.compactPointers);
    var two := ApplyAll(one, b);
    assert [] + e.deletedFiles == e.deletedFiles && [] + e.newFiles == e.newFiles;
    ApplyDeletions(two, e.deletedFiles);
    ApplyNewFiles(ApplyAll(two, c), d);
  }

  /** Decoding inverts encoding exactly if the edit decoded into held no compaction pointers. */
  lemma DecodeInvertsEncode(e: Edit, into: Edit)
    requires EditOk(e)
    ensures GetItems(ItemsBytes(Items(e))) == Some(Items(e))
    ensures ApplyAll(Cleared(into), Items(e)) == e <==> into.compactPointers == []
  {
    ItemsRoundTrip(Items(e));
    ReadBack(e, into);
    hide Items, Cleared, ApplyAll, EditOk;
    if into.compactPointers == [] {
      assert [] + e.compactPointers == e.compactPointers;
    } else {
      assert |into.compactPointers + e.compactPointers| != |e.compactPointers|;
    }
  }

  lemma ItemsBytesAt(items: seq<Item>, i: nat, dst: seq<Byte>)
    requires i < |items|
    ensures dst + ItemsBytes(items[i..]) ==
      dst + (Varint(TagOf(items[i])) + BodyBytes(items[i])) + ItemsBytes(items[i + 1..])
  {
    FirstItem(items[i..]);
    hide BodyBytes, Varint, ItemsBytes;
    assert items[i..][1..] == items[i + 1..];
    var a, b := Varint(TagOf(items[i])) + BodyBytes(items[i]), ItemsBytes(items[i + 1..]);
    assert a + b == Varint(TagOf(items[i])) + (BodyBytes(items[i]) + b);
    assert dst + (a + b) == dst + a + b;
  }

  lemma ItemsBytesEnd(items: seq<Item>, dst: seq<Byte>)
    ensures dst + ItemsBytes(items[|items|..]) == dst
  {
    assert items[|items|..] == [];
  }

  class VersionEdit {
    var e: Edit

    constructor ()
      ensures e == Edit(None, None, None, None, None, [], [], [])
    {
      e := Edit(None, None, None, None, None, [], [], []);
    }

    method EncodeTo() returns (dst: seq<Byte>)
      ensures dst == ItemsBytes(Items(e))
    {
      hide ItemsBytes, Items, BodyBytes, Varint;
      var items := Items(e);
      dst := [];
      assert items[0..] == items && [] + ItemsBytes(items) == ItemsBytes(items);
      for i := 0 to |items|
        invariant ItemsBytes(items) == dst + ItemsBytes(items[i..])
      {
        ItemsBytesAt(items, i, dst);
        dst := dst + (Varint(TagOf(items[i])) + BodyBytes(items[i]));
      }
      ItemsBytesEnd(items, dst);
    }

    /** Read items one after the other; an error leaves those before it in place. */
    method DecodeFrom(src: seq<Byte>) returns (ok: bool)
      modifies this
      ensures ok == GetItems(src).Some?
      ensures ok ==> e == ApplyAll(Cleared(old(e)), GetItems(src).value)
    {
      e := Cleared(e);
      ghost var start := e;
      var input := src;
      while input != []
        invariant GetItems(src).Some? <==> GetItems(input).Some?
        invariant GetItems(src).Some? ==> ApplyAll(start, GetItems(src).value) == ApplyAll(e, GetItems(input).value)
        decreases |input|
      {
        var tag := GetVarint32(input, 0, 0);
        if tag.Fail? {
          return false;
        }
        var item := GetItem(tag.value, tag.rest);
        if item.Fail? {
          return false;
        }
        ghost var more := GetItems(item.rest);
        assert more.Some? ==> ([item.value] + more.value)[1..] == more.value;
        e := Apply(e, item.value);
        input := item.rest;
      }
      return true;
    }
  }
}
