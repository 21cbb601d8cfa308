/** The file set: folding manifest edits into versions. */
module Versions {
  import opened Basics
  import opened Keys
  import opened VersionEdits

  /** files[level] are the tables of that level. */
  type Files = seq<seq<FileMetadata>>

  // ----- What Apply does, as functions up to the order that sorting leaves among equal smallest keys

  function RemoveFirst(fs: seq<FileMetadata>, id: uint64): seq<FileMetadata> {
    if fs == [] then [] else if fs[0].fileID == id then fs[1..] else [fs[0]] + RemoveFirst(fs[1..], id)
  }

  /** A level the version never had makes a delete a no-op. */
  function DeleteOne(files: Files, d: DeletedFile): (r: Files)
    ensures |r| == |files|
  {
    if d.level >= |files| then files else files[d.level := RemoveFirst(files[d.level], d.fileID)]
  }

  function DeleteAll(files: Files, ds: seq<DeletedFile>): (r: Files)
    ensures |r| == |files|
    decreases ds
  {
    if ds == [] then files else DeleteAll(DeleteOne(files, ds[0]), ds[1..])
  }

  function Grow(files: Files, n: nat): (r: Files)
    ensures |r| >= n && |r| >= |files|
    ensures forall l :: 0 <= l < |r| ==> r[l] == if l < |files| then files[l] else []
    decreases n - |files|
  {
    if n <= |files| then files else Grow(files + [[]], n)
  }

  function AddOne(files: Files, f: FileMetadata): (r: Files)
    ensures f.level < |r| && |files| <= |r|
  {
    var grown := Grow(files, f.level + 1);
    grown[f.level := grown[f.level] + [f]]
  }

  function AddAll(files: Files, fs: seq<FileMetadata>): (r: Files)
    ensures |files| <= |r|
    decreases fs
  {
    if fs == [] then files else AddAll(AddOne(files, fs[0]), fs[1..])
  }

  function Unsorted(files: Files, edit: VersionEdit): Files {
    AddAll(DeleteAll(files, edit.deletedFiles), edit.addedFiles)
  }

  predicate Touches(edit: VersionEdit, level: nat) {
    (exists d :: d in edit.deletedFiles && d.level == level) || (exists f :: f in edit.addedFiles && f.level == level)
  }

  ghost predicate SortedBySmallest(fs: seq<FileMetadata>) {
    forall i, j :: 0 <= i < j < |fs| ==> Compare(fs[i].smallestKey, fs[j].smallestKey) <= 0
  }

  /** One level of the result: L0 and untouched levels as they come, the others in sorted order. */
  ghost predicate LevelApplied(before: seq<FileMetadata>, after: seq<FileMetadata>, sorted: bool) {
    if sorted then multiset(after) == multiset(before) && SortedBySmallest(after) else after == before
  }

  ghost predicate Applied(files: Files, edit: VersionEdit, result: Files) {
    var u := Unsorted(files, edit);
    |result| == |u| && forall l :: 0 <= l < |u| ==> LevelApplied(u[l], result[l], l > 0 && Touches(edit, l))
  }

  // ----- The version object

  class Version {
    var files: Files

    constructor ()
      ensures files == []
    {
      files := [];
    }

    method Clone() returns (v: Version)
      ensures fresh(v) && v.files == files
    {
      v := new Version();
      v.files := files;
    }

    /** A new version with the edit applied; this one is not modified. */
    method Apply(edit: VersionEdit) returns (v: Version)
      ensures fresh(v) && Applied(files, edit, v.files)
    {
      v := Clone();
      var deleted := v.DeleteFiles(edit.deletedFiles);
      var added := v.AddFiles(edit.addedFiles);
      v.SortTouched(deleted + added, edit);
    }

    method DeleteFiles(ds: seq<DeletedFile>) returns (touched: set<uint32>)
      modifies this
      ensures files == DeleteAll(old(files), ds)
      ensures forall l: uint32 :: l in touched <==> exists d :: d in ds && d.level == l
    {
      touched := {};
      for i := 0 to |ds|
        invariant DeleteAll(files, ds[i..]) == DeleteAll(old(files), ds)
        invariant forall l: uint32 :: l in touched <==> exists d :: d in ds[..i] && d.level == l
      {
        var d := ds[i];
        assert ds[i..][1..] == ds[i + 1..] && ds[..i + 1] == ds[..i] + [d];
        touched := touched + {d.level};
        if d.level >= |files| {
          continue;
        }
        var level := DropFile(files[d.level], d.fileID);
        files := files[d.level := level];
      }
      assert ds[..|ds|] == ds;
    }

    method AddFiles(fs: seq<FileMetadata>) returns (touched: set<uint32>)
      modifies this
      ensures files == AddAll(old(files), fs)
      ensures forall l: uint32 :: l in touched <==> exists f :: f in fs && f.level == l
    {
      touched := {};
      for i := 0 to |fs|
        invariant AddAll(files, fs[i..]) == AddAll(old(files), fs)
        invariant forall l: uint32 :: l in touched <==> exists f :: f in fs[..i] && f.level == l
      {
        var f := fs[i];
        assert fs[i..][1..] == fs[i + 1..] && fs[..i + 1] == fs[..i] + [f];
        touched := touched + {f.level};
        ghost var before := files;
        while f.level >= |files|
          invariant Grow(files, f.level + 1) == Grow(before, f.level + 1)
          decreases f.level - |files|
        {
          files := files + [[]];
        }
        files := files[f.level := files[f.level] + [f]];
      }
      assert fs[..|fs|] == fs;
    }

    /** Sorts every touched level but L0; the levels may be visited in any order. */
    method SortTouched(touched: set<uint32>, ghost edit: VersionEdit)
      requires forall l: uint32 :: l in touched <==> Touches(edit, l)
      modifies this
      ensures |files| == |old(files)|
      ensures forall l :: 0 <= l < |files| ==> LevelApplied(old(files)[l], files[l], l > 0 && Touches(edit, l))
    {
      hide SortedBySmallest, Touches;
      var todo := touched;
      while todo != {}
        invariant |files| == |old(files)| && todo <= touched
        invariant forall l :: 0 <= l < |files| ==>
                    LevelApplied(old(files)[l], files[l], l > 0 && l in touched && l !in todo)
        decreases todo
      {
        var level :| level in todo;
        todo := todo - {level};
        if level != 0 && level < |files| {
          assert LevelApplied(old(files)[level], files[level], false);
          var sorted := SortFiles(files[level]);
          files := files[level := sorted];
        }
      }
      forall l | 0 <= l < |files|
        ensures LevelApplied(old(files)[l], files[l], l > 0 && Touches(edit, l))
      {
        assert LevelApplied(old(files)[l], files[l], l > 0 && l in touched && l !in todo);
        TouchedRange(edit, l);
      }
    }

    /** Every file, level by level. */
    method AllFiles() returns (all: seq<FileMetadata>)
      ensures all == Flat(files)
    {
      all := [];
      for i := 0 to |files|
        invariant all + Flat(files[i..]) == Flat(files)
      {
        assert files[i..][1..] == files[i + 1..];
        assert all + (files[i] + Flat(files[i + 1..])) == (all + files[i]) + Flat(files[i + 1..]);
        all := all + files[i];
      }
      assert all + [] == all;
    }
  }

  /** Levels are 32-bit numbers. */
  lemma {:induction false} TouchedRange(edit: VersionEdit, l: nat)
    ensures Touches(edit, l) ==> l < 0x1_0000_0000
  {
  }

  function Flat(files: Files): seq<FileMetadata> {
    if files == [] then [] else files[0] + Flat(files[1..])
  }

  /** The search loop of Apply: removes the first file with this id, if any. */
  method DropFile(fs: seq<FileMetadata>, id: uint64) returns (r: seq<FileMetadata>)
    ensures r == RemoveFirst(fs, id)
  {
    for i := 0 to |fs|
      invariant RemoveFirst(fs, id) == fs[..i] + RemoveFirst(fs[i..], id)
    {
      assert fs[i..][1..] == fs[i + 1..];
      if fs[i].fileID == id {
        return fs[..i] + fs[i + 1..];
      }
      assert fs[..i] + ([fs[i]] + RemoveFirst(fs[i + 1..], id)) == fs[..i + 1] + RemoveFirst(fs[i + 1..], id);
    }
    assert fs[..|fs|] + [] == fs;
    r := fs;
  }

  /** Some sorted arrangement; callers may rely on nothing about the order of equal smallest keys. */
  method SortFiles(fs: seq<FileMetadata>) returns (r: seq<FileMetadata>)
    ensures multiset(r) == multiset(fs) && SortedBySmallest(r)
  {
    hide Compare, SortedBySmallest;
    EmptySorted();
    r := [];
    for i := 0 to |fs|
      invariant multiset(r) == multiset(fs[..i]) && SortedBySmallest(r)
    {
      assert fs[..i + 1] == fs[..i] + [fs[i]];
      r := SortedInsert(r, fs[i]);
    }
    assert fs[..|fs|] == fs;
  }

  method SortedInsert(fs: seq<FileMetadata>, f: FileMetadata) returns (r: seq<FileMetadata>)
    requires SortedBySmallest(fs)
    ensures multiset(r) == multiset(fs) + multiset{f} && SortedBySmallest(r)
  {
    hide Compare, SortedBySmallest;
    var p := 0;
    while p < |fs| && Compare(fs[p].smallestKey, f.smallestKey) <= 0
      invariant p <= |fs| && forall k :: 0 <= k < p ==> Compare(fs[k].smallestKey, f.smallestKey) <= 0
    {
      p := p + 1;
    }
    InsertSorted(fs, f, p);
    assert fs == fs[..p] + fs[p..];
    r := fs[..p] + [f] + fs[p..];
  }

  lemma {:induction false} InsertSorted(fs: seq<FileMetadata>, f: FileMetadata, p: nat)
    requires SortedBySmallest(fs) && p <= |fs|
    requires forall k :: 0 <= k < p ==> Compare(fs[k].smallestKey, f.smallestKey) <= 0
    requires p < |fs| ==> Compare(fs[p].smallestKey, f.smallestKey) > 0
    ensures SortedBySmallest(fs[..p] + [f] + fs[p..])
  {
    hide Compare;
    forall k | p <= k < |fs| ensures Compare(f.smallestKey, fs[k].smallestKey) <= 0 {
      CompareAntisymmetric(fs[p].smallestKey, f.smallestKey);
      if k > p {
        CompareTransitive(f.smallestKey, fs[p].smallestKey, fs[k].smallestKey);
      }
    }
  }

  // ----- What every edit conserves

  /** The files a list of deletes removes, in the order they go. */
  function Dropped(files: Files, ds: seq<DeletedFile>): seq<FileMetadata>
    decreases ds
  {
    if ds == [] then [] else DroppedOne(files, ds[0]) + Dropped(DeleteOne(files, ds[0]), ds[1..])
  }

  function DroppedOne(files: Files, d: DeletedFile): seq<FileMetadata> {
    if d.level >= |files| then [] else FirstWithId(files[d.level], d.fileID)
  }

  function FirstWithId(fs: seq<FileMetadata>, id: uint64): (r: seq<FileMetadata>)
    ensures |r| <= 1 && (r == [] <==> forall f :: f in fs ==> f.fileID != id)
    ensures r != [] ==> r[0] in fs && r[0].fileID == id
  {
    if fs == [] then [] else if fs[0].fileID == id then [fs[0]] else FirstWithId(fs[1..], id)
  }

  lemma {:induction false} RemoveFirstConserves(fs: seq<FileMetadata>, id: uint64)
    ensures multiset(RemoveFirst(fs, id)) + multiset(FirstWithId(fs, id)) == multiset(fs)
  {
    if fs != [] {
      assert fs == [fs[0]] + fs[1..];
      RemoveFirstConserves(fs[1..], id);
    }
  }

  /** Exactly the first file with the id goes, and the others stay in their order. */
  lemma {:induction false} RemoveFirstInPlace(before: seq<FileMetadata>, f: FileMetadata, after: seq<FileMetadata>)
    requires forall g :: g in before ==> g.fileID != f.fileID
    ensures RemoveFirst(before + [f] + after, f.fileID) == before + after
    ensures RemoveFirst(before, f.fileID) == before
  {
    var fs := before + [f] + after;
    if before == [] {
      assert fs == [f] + after && fs[1..] == after && before + after == after;
    } else {
      assert fs[1..] == before[1..] + [f] + after;
      assert before == [before[0]] + before[1..];
      RemoveFirstInPlace(before[1..], f, after);
      assert [before[0]] + (before[1..] + after) == before + after;
    }
  }

  /** Adding to both sides of a multiset equation. */
  lemma {:induction false} Plus<T>(h: multiset<T>, a: multiset<T>, b: multiset<T>, c: multiset<T>, d: multiset<T>)
    requires a + b == c + d
    ensures h + a + b == h + c + d && a + (h + b) == c + (h + d)
  {
    assert h + a + b == h + (a + b) && h + c + d == h + (c + d);
    assert a + (h + b) == h + (a + b) && c + (h + d) == h + (c + d);
  }

  /** Changing one level changes the whole by what that level changed. */
  lemma {:induction false} FlatUpdate(files: Files, l: nat, fs: seq<FileMetadata>)
    requires l < |files|
    ensures multiset(Flat(files[l := fs])) + multiset(files[l]) == multiset(Flat(files)) + multiset(fs)
  {
    var after := files[l := fs];
    assert multiset(Flat(after)) == multiset(after[0]) + multiset(Flat(after[1..]));
    assert multiset(Flat(files)) == multiset(files[0]) + multiset(Flat(files[1..]));
    if l == 0 {
      assert after[1..] == files[1..];
    } else {
      assert after[1..] == files[1..][l - 1 := fs];
      FlatUpdate(files[1..], l - 1, fs);
      Plus(multiset(files[0]), multiset(Flat(after[1..])), multiset(files[l]), multiset(Flat(files[1..])),
        multiset(fs));
    }
  }

  lemma {:induction false} FlatGrow(files: Files, n: nat)
    ensures Flat(Grow(files, n)) == Flat(files)
    decreases n - |files|
  {
    if n > |files| {
      FlatGrow(files + [[]], n);
      FlatSnocEmpty(files);
    }
  }

  lemma {:induction false} FlatSnocEmpty(files: Files)
    ensures Flat(files + [[]]) == Flat(files)
  {
    if files == [] {
      assert (files + [[]])[1..] == [];
    } else {
      assert (files + [[]])[1..] == files[1..] + [[]];
      FlatSnocEmpty(files[1..]);
    }
  }

  lemma {:induction false} DeleteStep<T>(all: multiset<T>, rest: multiset<T>, kept: multiset<T>, gone: multiset<T>,
                                         level: multiset<T>)
    requires rest + level == all + kept && kept + gone == level
    ensures rest + gone == all
  {
    assert rest + (kept + gone) == rest + gone + kept;
    assert rest + gone == (rest + gone + kept) - kept == (all + kept) - kept == all;
  }

  lemma {:induction false} DropStep<T>(end: multiset<T>, later: multiset<T>, gone: multiset<T>, rest: multiset<T>)
    requires end + later == rest
    ensures end + (gone + later) == rest + gone
  {
  }

  lemma {:induction false} DeletesConserve(files: Files, ds: seq<DeletedFile>)
    ensures multiset(Flat(DeleteAll(files, ds))) + multiset(Dropped(files, ds)) == multiset(Flat(files))
    decreases ds
  {
    hide RemoveFirst, FirstWithId, Flat;
    if ds != [] {
      var d := ds[0];
      DeletesConserve(DeleteOne(files, d), ds[1..]);
      assert multiset(Dropped(files, ds))
          == multiset(DroppedOne(files, d)) + multiset(Dropped(DeleteOne(files, d), ds[1..]));
      if d.level < |files| {
        var kept := RemoveFirst(files[d.level], d.fileID);
        RemoveFirstConserves(files[d.level], d.fileID);
        FlatUpdate(files, d.level, kept);
        DeleteStep(multiset(Flat(files)), multiset(Flat(DeleteOne(files, d))), multiset(kept),
                   multiset(DroppedOne(files, d)), multiset(files[d.level]));
      }
      DropStep(multiset(Flat(DeleteAll(files, ds))), multiset(Dropped(DeleteOne(files, d), ds[1..])),
               multiset(DroppedOne(files, d)), multiset(Flat(DeleteOne(files, d))));
    }
  }

  lemma {:induction false} AddStep<T>(after: multiset<T>, level: multiset<T>, all: multiset<T>, new_: multiset<T>)
    requires after + level == all + (level + new_)
    ensures after == all + new_
  {
    assert after == (after + level) - level;
    assert all + new_ == (all + (level + new_)) - level;
  }

  lemma {:induction false} AddsConserve(files: Files, fs: seq<FileMetadata>)
    ensures multiset(Flat(AddAll(files, fs))) == multiset(Flat(files)) + multiset(fs)
    decreases fs
  {
    hide Flat, Grow;
    if fs != [] {
      var f := fs[0];
      AddsConserve(AddOne(files, f), fs[1..]);
      var grown := Grow(files, f.level + 1);
      FlatGrow(files, f.level + 1);
      FlatUpdate(grown, f.level, grown[f.level] + [f]);
      assert fs == [f] + fs[1..];
      assert multiset(grown[f.level] + [f]) == multiset(grown[f.level]) + multiset{f};
      assert multiset(fs) == multiset{f} + multiset(fs[1..]);
      AddStep(multiset(Flat(AddOne(files, f))), multiset(grown[f.level]), multiset(Flat(files)), multiset{f});
    }
  }

  lemma {:induction false} LevelwiseSameFlat(a: Files, b: Files)
    requires |a| == |b| && forall l :: 0 <= l < |a| ==> multiset(a[l]) == multiset(b[l])
    ensures multiset(Flat(a)) == multiset(Flat(b))
  {
    if a != [] {
      LevelwiseSameFlat(a[1..], b[1..]);
    }
  }

  /** Nothing is lost or made up: the old files without the dropped ones, and the added ones. */
  lemma {:induction false} ApplyConserves(files: Files, edit: VersionEdit, result: Files)
    requires Applied(files, edit, result)
    ensures multiset(Flat(result)) + multiset(Dropped(files, edit.deletedFiles))
         == multiset(Flat(files)) + multiset(edit.addedFiles)
  {
    hide Flat, Dropped, DeleteAll, AddAll;
    var u := Unsorted(files, edit);
    forall l | 0 <= l < |u| ensures multiset(u[l]) == multiset(result[l]) {
      assert LevelApplied(u[l], result[l], l > 0 && Touches(edit, l));
    }
    LevelwiseSameFlat(u, result);
    DeletesConserve(files, edit.deletedFiles);
    AddsConserve(DeleteAll(files, edit.deletedFiles), edit.addedFiles);
  }

  // ----- Order

  function AtLevel(fs: seq<FileMetadata>, level: nat): seq<FileMetadata> {
    if fs == [] then [] else (if fs[0].level == level then [fs[0]] else []) + AtLevel(fs[1..], level)
  }

  function Level(files: Files, l: nat): seq<FileMetadata> {
    if l < |files| then files[l] else []
  }

  lemma {:induction false} AddOneLevel(files: Files, f: FileMetadata, l: nat)
    ensures Level(AddOne(files, f), l) == Level(files, l) + (if f.level == l then [f] else [])
  {
  }

  lemma {:induction false} AddAllLevel(files: Files, fs: seq<FileMetadata>, l: nat)
    ensures Level(AddAll(files, fs), l) == Level(files, l) + AtLevel(fs, l)
    decreases fs
  {
    if fs == [] {
      assert Level(files, l) + [] == Level(files, l);
    } else {
      hide Level, AddOne;
      var step := if fs[0].level == l then [fs[0]] else [];
      AddOneLevel(files, fs[0], l);
      AddAllLevel(AddOne(files, fs[0]), fs[1..], l);
      Assoc(Level(files, l), step, AtLevel(fs[1..], l));
    }
  }

  /** The files of one level that no delete names, in place. */
  function Kept(fs: seq<FileMetadata>, ds: seq<DeletedFile>, level: nat): seq<FileMetadata> {
    if fs == [] then []
    else (if DeletedFrom(ds, level, fs[0].fileID) then [] else [fs[0]]) + Kept(fs[1..], ds, level)
  }

  predicate DeletedFrom(ds: seq<DeletedFile>, level: nat, id: uint64) {
    exists d :: d in ds && d.level == level && d.fileID == id
  }

  predicate DistinctIds(fs: seq<FileMetadata>) {
    forall i, j :: 0 <= i < j < |fs| ==> fs[i].fileID != fs[j].fileID
  }

  lemma {:induction false} KeptAll(fs: seq<FileMetadata>, ds: seq<DeletedFile>, level: nat)
    requires forall f :: f in fs ==> !DeletedFrom(ds, level, f.fileID)
    ensures Kept(fs, ds, level) == fs
  {
    if fs != [] {
      assert fs[0] in fs && forall f :: f in fs[1..] ==> f in fs;
      KeptAll(fs[1..], ds, level);
    }
  }

  lemma {:induction false} DistinctHead(f: FileMetadata, fs: seq<FileMetadata>)
    ensures DistinctIds([f] + fs) <==> DistinctIds(fs) && forall g :: g in fs ==> g.fileID != f.fileID
  {
    var all := [f] + fs;
    assert forall i :: 0 <= i < |fs| ==> fs[i] == all[i + 1];
    if DistinctIds(all) {
      forall g | g in fs ensures g.fileID != f.fileID {
        var i :| 0 <= i < |fs| && fs[i] == g;
        assert all[0].fileID != all[i + 1].fileID;
      }
    }
    if DistinctIds(fs) && forall g :: g in fs ==> g.fileID != f.fileID {
      forall i, j | 0 <= i < j < |all| ensures all[i].fileID != all[j].fileID {
        assert all[j] == fs[j - 1] && (i > 0 ==> all[i] == fs[i - 1]);
      }
    }
  }

  /** Taking the first delete out of the list: it removes one file of its level or none. */
  lemma {:induction false} KeptStep(fs: seq<FileMetadata>, ds: seq<DeletedFile>, level: nat)
    requires ds != [] && DistinctIds(fs)
    ensures var fs' := if ds[0].level == level then RemoveFirst(fs, ds[0].fileID) else fs;
            DistinctIds(fs') && Kept(fs, ds, level) == Kept(fs', ds[1..], level)
  {
    hide DeletedFrom, DistinctIds;
    if fs != [] {
      var f, rest, id := fs[0], fs[1..], ds[0].fileID;
      assert fs == [f] + rest;
      DistinctHead(f, rest);
      KeptStep(rest, ds, level);
      DeletedHead(ds, level, f.fileID);
      if ds[0].level == level {
        if id == f.fileID {
          RemoveNone(rest, id);
        } else {
          var rest' := RemoveFirst(rest, id);
          RemoveFirstFrom(rest, id);
          DistinctHead(f, rest');
          assert ([f] + rest')[1..] == rest';
        }
      }
    }
  }

  lemma {:induction false} DeletedHead(ds: seq<DeletedFile>, level: nat, id: uint64)
    requires ds != []
    ensures DeletedFrom(ds, level, id) <==>
              (ds[0].level == level && ds[0].fileID == id) || DeletedFrom(ds[1..], level, id)
  {
    assert ds == [ds[0]] + ds[1..];
  }

  lemma {:induction false} RemoveNone(fs: seq<FileMetadata>, id: uint64)
    requires forall f :: f in fs ==> f.fileID != id
    ensures RemoveFirst(fs, id) == fs
  {
    if fs != [] {
      assert fs[0] in fs;
      RemoveNone(fs[1..], id);
    }
  }

  lemma {:induction false} RemoveFirstFrom(fs: seq<FileMetadata>, id: uint64)
    ensures forall f :: f in RemoveFirst(fs, id) ==> f in fs
  {
    if fs != [] {
      RemoveFirstFrom(fs[1..], id);
    }
  }

  lemma {:induction false} DeletesAtLevel(files: Files, ds: seq<DeletedFile>, l: nat)
    requires DistinctIds(Level(files, l))
    ensures Level(DeleteAll(files, ds), l) == Kept(Level(files, l), ds, l)
    decreases ds
  {
    hide Kept, DistinctIds, RemoveFirst;
    if ds == [] {
      KeptAll(Level(files, l), ds, l);
    } else {
      KeptStep(Level(files, l), ds, l);
      EmptyKept(ds, ds[0].fileID, l);
      DeletesAtLevel(DeleteOne(files, ds[0]), ds[1..], l);
    }
  }

  lemma {:induction false} EmptyKept(ds: seq<DeletedFile>, id: uint64, level: nat)
    ensures RemoveFirst([], id) == [] && Kept([], ds, level) == []
  {
  }

  /**
   * What an edit does to each level, where every id occurs once: the files its deletes name at this level go, those it
   * adds at this level come behind the rest; above L0 a level that the edit names is sorted, all else stays in place.
   */
  lemma {:induction false} EachLevelIs(files: Files, edit: VersionEdit, result: Files, l: nat)
    requires Applied(files, edit, result) && DistinctIds(Level(files, l))
    ensures var now := Kept(Level(files, l), edit.deletedFiles, l) + AtLevel(edit.addedFiles, l);
            && multiset(Level(result, l)) == multiset(now)
            && (if l > 0 && Touches(edit, l) then SortedBySmallest(Level(result, l)) else Level(result, l) == now)
  {
    hide DeleteAll, AddAll, Kept, AtLevel, DistinctIds, SortedBySmallest;
    DeletesAtLevel(files, edit.deletedFiles, l);
    AddAllLevel(DeleteAll(files, edit.deletedFiles), edit.addedFiles, l);
    EmptySorted();
    var u := Unsorted(files, edit);
    if l < |u| {
      assert LevelApplied(u[l], result[l], l > 0 && Touches(edit, l));
    }
  }

  /** L0 keeps insertion order: what survives the deletes, in place, then the new files in edit order. */
  lemma {:induction false} LevelZeroKeepsOrder(files: Files, edit: VersionEdit, result: Files)
    requires Applied(files, edit, result)
    ensures Level(result, 0) == Level(DeleteAll(files, edit.deletedFiles), 0) + AtLevel(edit.addedFiles, 0)
  {
    hide DeleteAll, AddAll;
    AddAllLevel(DeleteAll(files, edit.deletedFiles), edit.addedFiles, 0);
    var u := Unsorted(files, edit);
    if |u| > 0 {
      assert LevelApplied(u[0], result[0], false);
    }
  }

  ghost predicate SortedAboveZero(files: Files) {
    forall l :: 0 < l < |files| ==> SortedBySmallest(files[l])
  }

  lemma {:induction false} DeleteAllUntouched(files: Files, ds: seq<DeletedFile>, l: nat)
    requires l < |files| && forall d :: d in ds ==> d.level != l
    ensures DeleteAll(files, ds)[l] == files[l]
    decreases ds
  {
    if ds != [] {
      assert ds[0] in ds;
      DeleteAllUntouched(DeleteOne(files, ds[0]), ds[1..], l);
    }
  }

  lemma {:induction false} AtLevelUntouched(fs: seq<FileMetadata>, l: nat)
    requires forall f :: f in fs ==> f.level != l
    ensures AtLevel(fs, l) == []
  {
    if fs != [] {
      assert fs[0] in fs;
      AtLevelUntouched(fs[1..], l);
    }
  }

  /** Every level above 0 stays sorted by smallest key. */
  lemma {:induction false} ApplyKeepsSorted(files: Files, edit: VersionEdit, result: Files)
    requires SortedAboveZero(files) && Applied(files, edit, result)
    ensures SortedAboveZero(result)
  {
    hide DeleteAll, AddAll, SortedBySmallest;
    var u := Unsorted(files, edit);
    forall l | 0 < l < |result| ensures SortedBySmallest(result[l]) {
      assert LevelApplied(u[l], result[l], Touches(edit, l));
      if !Touches(edit, l) {
        AddAllLevel(DeleteAll(files, edit.deletedFiles), edit.addedFiles, l);
        AtLevelUntouched(edit.addedFiles, l);
        var kept := Level(DeleteAll(files, edit.deletedFiles), l);
        assert result[l] == Level(u, l) == kept + [] == kept;
        if l < |files| {
          DeleteAllUntouched(files, edit.deletedFiles, l);
        } else {
          EmptySorted();
        }
      }
    }
  }

  lemma {:induction false} EmptySorted()
    ensures SortedBySmallest([])
  {
  }

  /** The versions a sequence of edits goes through, starting from the empty one. */
  ghost predicate History(edits: seq<VersionEdit>, versions: seq<Files>) {
    && |versions| == |edits| + 1 && versions[0] == []
    && forall i :: 0 <= i < |edits| ==> Applied(versions[i], edits[i], versions[i + 1])
  }

  lemma {:induction false} HistoryStaysSorted(edits: seq<VersionEdit>, versions: seq<Files>, i: nat)
    requires History(edits, versions) && i <= |edits|
    ensures SortedAboveZero(versions[i])
  {
    hide SortedBySmallest, Applied;
    if i > 0 {
      HistoryStaysSorted(edits, versions, i - 1);
      ApplyKeepsSorted(versions[i - 1], edits[i - 1], versions[i]);
    }
  }

  // ----- The live set that replay keeps beside the version

  function Ids(fs: seq<FileMetadata>): multiset<uint64> {
    if fs == [] then multiset{} else multiset{fs[0].fileID} + Ids(fs[1..])
  }

  lemma {:induction false} IdsMembers(fs: seq<FileMetadata>, id: uint64)
    ensures id in Ids(fs) <==> exists f :: f in fs && f.fileID == id
  {
    if fs != [] {
      assert fs == [fs[0]] + fs[1..];
      IdsMembers(fs[1..], id);
    }
  }

  /** Adds in order; None is the duplicate-AddFile error. */
  function LiveAfterAdds(live: set<uint64>, fs: seq<FileMetadata>): Option<set<uint64>>
    decreases fs
  {
    if fs == [] then Some(live)
    else if fs[0].fileID in live then None
    else LiveAfterAdds(live + {fs[0].fileID}, fs[1..])
  }

  function LiveAfter(live: set<uint64>, edit: VersionEdit): Option<set<uint64>> {
    match LiveAfterAdds(live, edit.addedFiles)
    case None => None
    case Some(more) => Some(more - (set d | d in edit.deletedFiles :: d.fileID))
  }

  /** The live set is exactly the ids in the version, each there once. */
  ghost predicate InSync(files: Files, live: set<uint64>) {
    Ids(Flat(files)) == multiset(live)
  }

  predicate Deletes(edit: VersionEdit, id: uint64) {
    exists d :: d in edit.deletedFiles && d.fileID == id
  }

  predicate IsAt(files: Files, level: nat, id: uint64) {
    level < |files| && exists f :: f in files[level] && f.fileID == id
  }

  /** Some delete of this id names the level the file is at. */
  predicate DeletedWhereItIs(files: Files, edit: VersionEdit, id: uint64) {
    exists d :: d in edit.deletedFiles && d.fileID == id && IsAt(files, d.level, id)
  }

  /**
   * What a writer can check before it appends: deletes of live files name the right level, and nothing is added and
   * deleted at once.
   */
  predicate ProperDeletes(files: Files, live: set<uint64>, edit: VersionEdit) {
    && (forall d :: d in edit.deletedFiles ==> d.fileID !in Ids(edit.addedFiles))
    && (forall d :: d in edit.deletedFiles && d.fileID in live ==> DeletedWhereItIs(files, edit, d.fileID))
  }

  lemma {:induction false} IdsSplit(a: seq<FileMetadata>, b: seq<FileMetadata>)
    ensures Ids(a + b) == Ids(a) + Ids(b)
  {
    if a == [] {
      assert a + b == b;
    } else {
      assert (a + b)[1..] == a[1..] + b;
      IdsSplit(a[1..], b);
    }
  }

  /** Equal multisets of files have equal multisets of ids. */
  lemma {:induction false} IdsOfPermutation(a: seq<FileMetadata>, b: seq<FileMetadata>)
    requires multiset(a) == multiset(b)
    ensures Ids(a) == Ids(b)
  {
    if a == [] {
      assert |multiset(b)| == |b|;
    } else {
      hide Ids;
      IdsHead(a);
      MultisetHead(a);
      var rest := TakeOut(b, a[0]);
      Cancel(multiset(rest), multiset(a[1..]), a[0]);
      IdsOfPermutation(a[1..], rest);
    }
  }

  lemma {:induction false} IdsHead(fs: seq<FileMetadata>)
    requires fs != []
    ensures Ids(fs) == multiset{fs[0].fileID} + Ids(fs[1..])
  {
  }

  lemma {:induction false} MultisetHead<T>(s: seq<T>)
    requires s != []
    ensures multiset(s) == multiset(s[1..]) + multiset{s[0]} && s[0] in multiset(s)
  {
    assert s == [s[0]] + s[1..];
  }

  lemma {:induction false} Cancel<T>(x: multiset<T>, y: multiset<T>, e: T)
    requires x + multiset{e} == y + multiset{e}
    ensures x == y
  {
    assert x == (x + multiset{e}) - multiset{e};
  }

  /** Taking one file out takes its id out. */
  lemma {:induction false} TakeOut(b: seq<FileMetadata>, f: FileMetadata) returns (rest: seq<FileMetadata>)
    requires f in multiset(b)
    ensures multiset(b) == multiset(rest) + multiset{f}
    ensures Ids(b) == multiset{f.fileID} + Ids(rest)
  {
    hide Ids;
    var i :| 0 <= i < |b| && b[i] == f;
    rest := b[..i] + b[i + 1..];
    assert b == b[..i] + [f] + b[i + 1..];
    IdsOfMiddle(b[..i], f, b[i + 1..]);
    FilesOfMiddle(b[..i], f, b[i + 1..]);
  }

  lemma {:induction false} FilesOfMiddle(before: seq<FileMetadata>, f: FileMetadata, after: seq<FileMetadata>)
    ensures multiset(before + [f] + after) == multiset(before + after) + multiset{f}
  {
  }

  lemma {:induction false} IdsOfMiddle(before: seq<FileMetadata>, f: FileMetadata, after: seq<FileMetadata>)
    ensures Ids(before + [f] + after) == multiset{f.fileID} + Ids(before + after)
  {
    IdsHead([f]);
    hide Ids;
    IdsSplit(before + [f], after);
    IdsSplit(before, [f]);
    IdsSplit(before, after);
    Swap(Ids(before), multiset{f.fileID}, Ids(after));
  }

  lemma {:induction false} Swap<T>(x: multiset<T>, y: multiset<T>, z: multiset<T>)
    ensures x + y + z == y + (x + z)
  {
  }

  lemma {:induction false} LiveAfterAddsIs(live: set<uint64>, fs: seq<FileMetadata>)
    requires LiveAfterAdds(live, fs).Some?
    ensures multiset(LiveAfterAdds(live, fs).value) == multiset(live) + Ids(fs)
    decreases fs
  {
    if fs != [] {
      LiveAfterAddsIs(live + {fs[0].fileID}, fs[1..]);
      assert multiset(live + {fs[0].fileID}) == multiset(live) + multiset{fs[0].fileID};
    }
  }

  /** How often an id is dropped: once if it occurs once and some delete names its place, otherwise not at all. */
  lemma {:induction false} DroppedIds(files: Files, ds: seq<DeletedFile>, id: uint64)
    requires Ids(Flat(files))[id] <= 1
    ensures Ids(Dropped(files, ds))[id]
         == if exists d :: d in ds && d.fileID == id && IsAt(files, d.level, id) then 1 else 0
    decreases ds
  {
    hide Flat, Ids;
    if ds == [] {
      EmptyIds();
    } else {
      var d, files' := ds[0], DeleteOne(files, ds[0]);
      assert ds == [d] + ds[1..];
      DroppedOneEffect(files, d, id);
      DroppedIds(files', ds[1..], id);
      IdsSplit(DroppedOne(files, d), Dropped(files', ds[1..]));
      if d.fileID == id && IsAt(files, d.level, id) {
        assert d in ds;
      } else {
        assert forall l: nat :: IsAt(files', l, id) <==> IsAt(files, l, id);
      }
    }
  }

  lemma {:induction false} EmptyIds()
    ensures Ids([]) == multiset{} && Flat([]) == []
  {
  }

  /** One delete drops its file where it stands and moves no other. */
  lemma {:induction false} DroppedOneEffect(files: Files, d: DeletedFile, id: uint64)
    requires Ids(Flat(files))[id] <= 1
    ensures var hit := d.fileID == id && IsAt(files, d.level, id);
            && Ids(DroppedOne(files, d))[id] == (if hit then 1 else 0)
            && Ids(Flat(DeleteOne(files, d)))[id] + (if hit then 1 else 0) == Ids(Flat(files))[id]
            && (hit ==> forall l: nat :: !IsAt(DeleteOne(files, d), l, id))
            && (!hit ==> forall l: nat :: IsAt(DeleteOne(files, d), l, id) <==> IsAt(files, l, id))
  {
    hide Flat, Ids, RemoveFirst, FirstWithId;
    DeletesConserve(files, [d]);
    assert [d][1..] == [] && Dropped(files, [d]) == DroppedOne(files, d) + [] == DroppedOne(files, d);
    var after := DeleteOne(files, d);
    assert DeleteAll(files, [d]) == after;
    assert multiset(Flat(after) + DroppedOne(files, d)) == multiset(Flat(files));
    IdsOfPermutation(Flat(after) + DroppedOne(files, d), Flat(files));
    IdsSplit(Flat(after), DroppedOne(files, d));
    OneDroppedId(files, d, id);
    if d.fileID == id && IsAt(files, d.level, id) {
      forall l: nat ensures !IsAt(after, l, id) {
        AtIsInFlat(after, l, id);
      }
    } else if d.level < |files| {
      RemoveFirstOthers(files[d.level], d.fileID, id);
    }
  }

  lemma {:induction false} OneDroppedId(files: Files, d: DeletedFile, id: uint64)
    ensures Ids(DroppedOne(files, d))[id] == if d.fileID == id && IsAt(files, d.level, id) then 1 else 0
  {
    var r := DroppedOne(files, d);
    if r != [] {
      assert r == [r[0]] && r[1..] == [];
    }
  }

  lemma {:induction false} AtIsInFlat(files: Files, l: nat, id: uint64)
    ensures IsAt(files, l, id) ==> id in Ids(Flat(files))
  {
    if l < |files| {
      IdsSplit(files[0], Flat(files[1..]));
      IdsMembers(files[l], id);
      if l > 0 {
        AtIsInFlat(files[1..], l - 1, id);
      }
    }
  }

  lemma {:induction false} RemoveFirstOthers(fs: seq<FileMetadata>, gone: uint64, id: uint64)
    requires gone != id || forall f :: f in fs ==> f.fileID != id
    ensures (exists f :: f in RemoveFirst(fs, gone) && f.fileID == id) <==> (exists f :: f in fs && f.fileID == id)
  {
    if fs != [] {
      assert fs == [fs[0]] + fs[1..];
      if fs[0].fileID != gone {
        RemoveFirstOthers(fs[1..], gone, id);
      }
    }
  }

  /** What applying an edit does to the ids of the version. */
  lemma {:induction false} ApplyIds(files: Files, edit: VersionEdit, result: Files)
    requires Applied(files, edit, result)
    ensures Ids(Flat(result)) + Ids(Dropped(files, edit.deletedFiles)) == Ids(Flat(files)) + Ids(edit.addedFiles)
  {
    hide Flat, Dropped, Applied, Ids;
    var dropped := Dropped(files, edit.deletedFiles);
    ApplyConserves(files, edit, result);
    IdsOfPermutation(Flat(result) + dropped, Flat(files) + edit.addedFiles);
    IdsSplit(Flat(result), dropped);
    IdsSplit(Flat(files), edit.addedFiles);
  }

  /**
   * Replay's duplicate check works on the live set, the database on the version. Starting in step, an
   * accepted edit leaves them in step exactly when its deletes are proper.
   */
  lemma {:induction false} LiveSetInSync(files: Files, live: set<uint64>, edit: VersionEdit, result: Files)
    requires InSync(files, live) && Applied(files, edit, result) && LiveAfter(live, edit).Some?
    ensures InSync(result, LiveAfter(live, edit).value) <==> ProperDeletes(files, live, edit)
  {
    hide Flat, Dropped, Applied, Ids, IsAt, LiveAfterAdds;
    var live': set<uint64> := LiveAfter(live, edit).value;
    ApplyIds(files, edit, result);
    LiveAfterAddsIs(live, edit.addedFiles);
    forall id: uint64
      ensures Ids(Flat(result))[id] == multiset(live')[id]
              <==> (Deletes(edit, id) ==>
                      id !in Ids(edit.addedFiles) && (id in live ==> DeletedWhereItIs(files, edit, id)))
    {
      SyncedId(files, live, edit, result, id);
    }
    if InSync(result, live') {
      assert forall d :: d in edit.deletedFiles ==> Deletes(edit, d.fileID);
    }
  }

  /** The same, for one id. */
  lemma {:induction false} SyncedId(files: Files, live: set<uint64>, edit: VersionEdit, result: Files, id: uint64)
    requires InSync(files, live) && LiveAfter(live, edit).Some?
    requires Ids(Flat(result)) + Ids(Dropped(files, edit.deletedFiles)) == Ids(Flat(files)) + Ids(edit.addedFiles)
    requires multiset(LiveAfterAdds(live, edit.addedFiles).value) == multiset(live) + Ids(edit.addedFiles)
    ensures Ids(Flat(result))[id] == multiset(LiveAfter(live, edit).value)[id]
            <==> (Deletes(edit, id) ==>
                    id !in Ids(edit.addedFiles) && (id in live ==> DeletedWhereItIs(files, edit, id)))
  {
    hide Flat, Dropped, Ids, IsAt, LiveAfterAdds;
    var more := LiveAfterAdds(live, edit.addedFiles).value;
    var live', d := LiveAfter(live, edit).value, Ids(Dropped(files, edit.deletedFiles))[id];
    DroppedIds(files, edit.deletedFiles, id);
    assert (multiset(live) + Ids(edit.addedFiles))[id] == multiset(live)[id] + Ids(edit.addedFiles)[id] <= 1;
    assert (Ids(Flat(result)) + Ids(Dropped(files, edit.deletedFiles)))[id] == Ids(Flat(result))[id] + d;
    assert id in live' <==> id in more && !Deletes(edit, id);
    assert d == if DeletedWhereItIs(files, edit, id) then 1 else 0;
    if d == 1 {
      DroppedIsThere(files, edit, id);
    }
  }

  lemma {:induction false} DroppedIsThere(files: Files, edit: VersionEdit, id: uint64)
    requires DeletedWhereItIs(files, edit, id)
    ensures id in Ids(Flat(files)) && Deletes(edit, id)
  {
    hide Flat, Ids;
    var d :| d in edit.deletedFiles && d.fileID == id && IsAt(files, d.level, id);
    AtIsInFlat(files, d.level, id);
  }

  /** A delete that names the wrong level drops the id from the live set but leaves the file in the version. */
  lemma {:induction false} WrongLevelDeleteDesyncs(f: FileMetadata)
    requires f.level == 0
    ensures var edit := EMPTY_EDIT.(deletedFiles := [DeletedFile(1, f.fileID)]);
            && InSync([[f]], {f.fileID}) && Applied([[f]], edit, [[f]])
            && LiveAfter({f.fileID}, edit) == Some({}) && !InSync([[f]], {})
  {
    var d := DeletedFile(1, f.fileID);
    var edit := EMPTY_EDIT.(deletedFiles := [d]);
    assert [[f]][1..] == [] && Flat([[f]]) == [f] + [] == [f] && [f][1..] == [];
    assert Ids([f]) == multiset{f.fileID} + multiset{};
    assert [d][1..] == [] && DeleteAll([[f]], [d]) == [[f]];
    assert (set x | x in [d] :: x.fileID) == {f.fileID};
    assert Unsorted([[f]], edit) == [[f]];
    assert {f.fileID} - {f.fileID} == {};
  }
}
