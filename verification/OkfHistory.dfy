/** Ownership, truth and recovery of the OKF projection over sequences of rebuilds, edits and interruptions. */
module OkfHistory {
  import opened Wrappers
  import opened Ordering
  import Text
  import opened Okf

  function At(d: Disk, path: string): Option<string> {
    if path in d.files then Some(d.files[path]) else None
  }

  // ----- paths -----

  /** Normalising a path either refuses it or gives it back. */
  lemma {:induction false} SplitThenJoin(path: string)
    ensures JoinSlash(Split(path)) == path
  {
    if path != "" {
      var rest := Split(path[1..]);
      SplitThenJoin(path[1..]);
      assert path == [path[0]] + path[1..];
      if path[0] == '/' {
        assert ([""] + rest)[1..] == rest;
      } else {
        var s := [[path[0]] + rest[0]] + rest[1..];
        if |rest| > 1 {
          assert s[1..] == rest[1..];
        }
      }
    }
  }

  lemma NormalizingKeepsThePath(path: string)
    ensures NormalizePath(path) == if SafePath(path) then Ok(path) else Err(UnsafePath)
  {
    SplitThenJoin(path);
  }

  // ----- what a list of writes leaves at a path -----

  predicate TouchesAt(e: Effect, path: string) { !e.Publish? && e.path == path }

  predicate Touches(es: seq<Effect>, path: string) { exists i :: 0 <= i < |es| && TouchesAt(es[i], path) }

  lemma {:induction false} TouchesLast(es: seq<Effect>, path: string)
    requires es != []
    ensures Touches(es, path) <==> Touches(es[..|es| - 1], path) || TouchesAt(es[|es| - 1], path)
  {
    var n := |es| - 1;
    if Touches(es[..n], path) {
      var i :| 0 <= i < n && TouchesAt(es[..n][i], path);
      assert TouchesAt(es[i], path);
    }
    if Touches(es, path) && !TouchesAt(es[n], path) {
      var i :| 0 <= i < |es| && TouchesAt(es[i], path);
      assert TouchesAt(es[..n][i], path);
    }
  }

  lemma {:induction false} UntouchedStays(d: Disk, es: seq<Effect>, path: string)
    requires !Touches(es, path)
    ensures At(DoAll(d, es), path) == At(d, path)
  {
    if es != [] {
      TouchesLast(es, path);
      UntouchedStays(d, es[..|es| - 1], path);
    }
  }

  /** Where a list of writes touches a path, the disk it starts from does not matter. */
  lemma {:induction false} TouchedIsDetermined(d: Disk, c: Disk, es: seq<Effect>, path: string)
    requires Touches(es, path)
    ensures At(DoAll(d, es), path) == At(DoAll(c, es), path)
  {
    TouchesLast(es, path);
    if !TouchesAt(es[|es| - 1], path) {
      TouchedIsDetermined(d, c, es[..|es| - 1], path);
    }
  }

  lemma {:induction false} ManifestAfter(d: Disk, es: seq<Effect>)
    requires forall e :: e in es ==> !e.Publish?
    ensures DoAll(d, es).manifest == d.manifest
  {
    if es != [] {
      ManifestAfter(d, es[..|es| - 1]);
    }
  }

  lemma SameDisk(a: Disk, b: Disk)
    requires a.manifest == b.manifest && forall p :: At(a, p) == At(b, p)
    ensures a == b
  {
    forall p ensures p in a.files <==> p in b.files {
      assert At(a, p) == At(b, p);
    }
    forall p | p in a.files ensures a.files[p] == b.files[p] {
      assert At(a, p) == At(b, p);
    }
    assert a.files == b.files;
  }

  // ----- removals and stores -----

  lemma {:induction false} RemovesAre(paths: seq<string>)
    ensures |Removes(paths)| == |paths| && forall i :: 0 <= i < |paths| ==> Removes(paths)[i] == Remove(paths[i])
  {
    if paths != [] {
      RemovesAre(paths[..|paths| - 1]);
    }
  }

  lemma {:induction false} StoresAre(files: seq<File>)
    ensures |Stores(files)| == |files|
    ensures forall i :: 0 <= i < |files| ==> Stores(files)[i] == Store(files[i].path, files[i].content)
  {
    if files != [] {
      StoresAre(files[..|files| - 1]);
    }
  }

  lemma {:induction false} RemovedAt(d: Disk, paths: seq<string>, path: string)
    ensures At(DoAll(d, Removes(paths)), path) == if path in paths then None else At(d, path)
  {
    if paths != [] {
      var n := |paths| - 1;
      assert paths == paths[..n] + [paths[n]];
      RemovedAt(d, paths[..n], path);
    }
  }

  lemma {:induction false} StoredAt(d: Disk, files: seq<File>, f: File)
    requires DistinctPaths(files) && f in files
    ensures At(DoAll(d, Stores(files)), f.path) == Some(f.content)
  {
    var n := |files| - 1;
    assert files == files[..n] + [files[n]];
    if f in files[..n] {
      StoredAt(d, files[..n], f);
    }
  }

  lemma {:induction false} NotStoredAt(d: Disk, files: seq<File>, path: string)
    requires !HasPath(files, path)
    ensures At(DoAll(d, Stores(files)), path) == At(d, path)
  {
    if files != [] {
      var n := |files| - 1;
      assert files == files[..n] + [files[n]];
      HasPathGrows(files[..n], files[n], path);
      NotStoredAt(d, files[..n], path);
    }
  }

  // ----- the files of a rebuild -----

  lemma SortedFiles(files: seq<File>)
    ensures forall f :: f in SortBy(files, FileBefore) <==> f in files
    ensures DistinctPaths(files) ==> DistinctPaths(SortBy(files, FileBefore))
    ensures DistinctPaths(files) ==> Ascending(SortBy(files, FileBefore), FileBefore)
  {
    SortKeeps(files, FileBefore);
    if DistinctPaths(files) {
      FilesAreOrdered();
      assert Separates(FileBefore, Elements(files)) by {
        forall a, b | a in Elements(files) && b in Elements(files) ensures Apart(FileBefore, a, b) {
          assert a in files && b in files;
          Text.KeysOrder(a.path, b.path, a.path);
        }
      }
      SortOfDistinct(files, FileBefore);
      var s := SortBy(files, FileBefore);
      forall i, j | 0 <= i < j < |s| ensures s[i].path != s[j].path {
        Text.KeysOrder(s[i].path, s[i].path, s[i].path);
      }
    }
  }

  lemma FilesAreOrdered()
    ensures WeakOrder(FileBefore)
  {
    forall a: File, b: File, c: File ensures Ranks(FileBefore, a, b, c) {
      Text.KeysOrder(a.path, b.path, c.path);
    }
  }

  lemma HasPathIn(files: seq<File>, path: string)
    ensures HasPath(files, path) <==> exists f :: f in files && f.path == path
  {
    if f :| f in files && f.path == path {
      var i :| 0 <= i < |files| && files[i] == f;
      assert files[i].path == path;
    }
  }

  lemma {:induction false} PathsMissingFacts(entries: seq<Entry>, files: seq<File>)
    ensures forall p :: p in PathsMissing(entries, files) <==> Listed(entries, p) && !HasPath(files, p)
    ensures DistinctEntries(entries) ==> Distinct(PathsMissing(entries, files))
  {
    if entries != [] {
      var n := |entries| - 1;
      PathsMissingFacts(entries[..n], files);
      forall p ensures Listed(entries, p) <==> Listed(entries[..n], p) || entries[n].path == p {
        ListedLast(entries, p);
      }
      if DistinctEntries(entries) {
        forall i | 0 <= i < n ensures entries[..n][i].path != entries[n].path {
          assert entries[..n][i] == entries[i];
        }
      }
    }
  }

  lemma ListedLast(entries: seq<Entry>, p: string)
    requires entries != []
    ensures Listed(entries, p) <==> Listed(entries[..|entries| - 1], p) || entries[|entries| - 1].path == p
  {
    var n := |entries| - 1;
    if Listed(entries[..n], p) {
      var i :| 0 <= i < n && entries[..n][i].path == p;
      assert entries[i].path == p;
    }
    if Listed(entries, p) && entries[n].path != p {
      var i :| 0 <= i < |entries| && entries[i].path == p;
      assert entries[..n][i].path == p;
    }
  }

  /** The missing files are those the last manifest owns and the plan does not hold. */
  lemma MissingFacts(d: Disk, input: Input)
    ensures forall p :: p in MissingAt(d, input) <==>
      Owned(ReadPrevious(d.manifest), p) && !HasPath(Planned(input), p)
  {
    var previous := ReadPrevious(d.manifest);
    if previous.Valid? {
      PathsMissingFacts(previous.manifest.entries, Planned(input));
      SortKeeps(PathsMissing(previous.manifest.entries, Planned(input)), Text.Less);
    }
  }

  lemma MissingOnce(d: Disk, input: Input)
    ensures Distinct(MissingAt(d, input))
  {
    var previous := ReadPrevious(d.manifest);
    if previous.Valid? {
      PathsMissingFacts(previous.manifest.entries, Planned(input));
      SortIsDistinct(PathsMissing(previous.manifest.entries, Planned(input)), Text.Less);
    }
  }

  function TombstonesAt(d: Disk, input: Input): seq<File> {
    if input.policy.TombstoneMissing? then Tombstones(MissingAt(d, input)) else []
  }

  /** Tombstones never collide with the plan, so the second collision check never fails. */
  lemma WrittenPathsDiffer(d: Disk, input: Input)
    requires DistinctPaths(Planned(input))
    ensures DistinctPaths(FilesToWrite(d, input))
  {
    var plan, tombs := Planned(input), TombstonesAt(d, input);
    PlanAndTombstonesDiffer(d, input);
    SortedFiles(plan + tombs);
  }

  lemma PlanAndTombstonesDiffer(d: Disk, input: Input)
    requires DistinctPaths(Planned(input))
    ensures DistinctPaths(Planned(input) + TombstonesAt(d, input))
  {
    var plan, tombs := Planned(input), TombstonesAt(d, input);
    MissingFacts(d, input);
    MissingOnce(d, input);
    forall i, j | 0 <= i < |plan| && 0 <= j < |tombs| ensures plan[i].path != tombs[j].path {
      assert tombs[j].path == MissingAt(d, input)[j] && MissingAt(d, input)[j] in MissingAt(d, input);
    }
  }

  lemma WrittenFiles(d: Disk, input: Input, path: string)
    ensures HasPath(FilesToWrite(d, input), path) <==>
      HasPath(Planned(input), path) || (input.policy.TombstoneMissing? && path in MissingAt(d, input))
  {
    var plan, tombs := Planned(input), TombstonesAt(d, input);
    SortedFiles(plan + tombs);
    HasPathIn(FilesToWrite(d, input), path);
    HasPathIn(plan, path);
    if path in MissingAt(d, input) && input.policy.TombstoneMissing? {
      var i :| 0 <= i < |MissingAt(d, input)| && MissingAt(d, input)[i] == path;
      assert tombs[i] in plan + tombs && tombs[i].path == path;
    }
    if HasPath(plan, path) {
      var f :| f in plan && f.path == path;
      assert f in plan + tombs;
    }
  }

  // ----- when a rebuild is accepted -----

  predicate GoodInput(input: Input) {
    input.zones != {} && DistinctPaths(Planned(input)) && SafeFiles(Planned(input))
  }

  /** Nothing the plan would write exists without being owned. */
  ghost predicate PlanIsClear(d: Disk, input: Input) {
    forall p :: HasPath(Planned(input), p) && p in d.files ==> Owned(ReadPrevious(d.manifest), p)
  }

  lemma OwnedIsSafe(m: ManifestFile, path: string)
    requires Owned(ReadPrevious(m), path)
    ensures SafePath(path)
  {
    var entries := ReadPrevious(m).manifest.entries;
    var i :| 0 <= i < |entries| && entries[i].path == path;
    assert entries[i] in entries;
  }

  /** A rebuild is accepted exactly when its own files are safe and distinct and it would overwrite only its own. */
  lemma AcceptedIff(d: Disk, input: Input)
    ensures Check(d, input).None? <==>
      GoodInput(input) && PlanIsClear(d, input) && !ReadPrevious(d.manifest).Corrupt?
  {
    var out := FilesToWrite(d, input);
    MissingFacts(d, input);
    if GoodInput(input) {
      WrittenPathsDiffer(d, input);
      forall f | f in out ensures SafePath(f.path)
        && (f.path in d.files && !HasPath(Planned(input), f.path) ==> Owned(ReadPrevious(d.manifest), f.path))
      {
        HasPathIn(out, f.path);
        WrittenFiles(d, input, f.path);
        HasPathIn(Planned(input), f.path);
        if !HasPath(Planned(input), f.path) {
          OwnedIsSafe(d.manifest, f.path);
        }
      }
      forall p | HasPath(Planned(input), p) ensures exists f :: f in out && f.path == p {
        WrittenFiles(d, input, p);
        HasPathIn(out, p);
      }
    }
  }

  // ----- what an accepted rebuild leaves -----

  lemma EffectsAt(digest: Digest, d: Disk, input: Input)
    ensures var after := DoAll(d, Effects(digest, d, input));
      && after.files == DoAll(DoAll(d, Removes(FilesToDelete(d, input))), Stores(FilesToWrite(d, input))).files
      && after.manifest == Json(NextManifest(digest, d, input))
  {
    DoAllInTurn(d, Removes(FilesToDelete(d, input)), Stores(FilesToWrite(d, input)), NextManifest(digest, d, input));
  }

  /** Path by path: planned files and tombstones are written, deletions are gone, the rest is as it was. */
  lemma RebuiltAt(digest: Digest, d: Disk, input: Input, path: string)
    requires Check(d, input).None?
    ensures var after := Rebuild(digest, d, input);
      && (forall f :: f in FilesToWrite(d, input) && f.path == path ==> At(after, path) == Some(f.content))
      && (!HasPath(FilesToWrite(d, input), path) ==>
            At(after, path) == if path in FilesToDelete(d, input) then None else At(d, path))
  {
    EffectsAt(digest, d, input);
    var middle := DoAll(d, Removes(FilesToDelete(d, input)));
    var out := FilesToWrite(d, input);
    forall f | f in out && f.path == path ensures At(DoAll(middle, Stores(out)), path) == Some(f.content) {
      StoredAt(middle, out, f);
    }
    if !HasPath(out, path) {
      NotStoredAt(middle, out, path);
      RemovedAt(d, FilesToDelete(d, input), path);
    }
  }

  lemma EntriesMatch(digest: Digest, files: seq<File>, path: string)
    ensures Listed(EntriesOf(digest, files), path) <==> HasPath(files, path)
  {
    var entries := EntriesOf(digest, files);
    if Listed(entries, path) {
      var i :| 0 <= i < |entries| && entries[i].path == path;
      assert files[i].path == path;
    }
    if HasPath(files, path) {
      var i :| 0 <= i < |files| && files[i].path == path;
      assert entries[i].path == path;
    }
  }

  /** The manifest lists a file with what the disk holds there. */
  predicate TrueEntry(digest: Digest, d: Disk, e: Entry) {
    && e.path in d.files && digest(d.files[e.path]) == e.digest
    && (e.tombstoned ==> d.files[e.path] == TOMBSTONE)
  }

  lemma WrittenEntryIsTrue(digest: Digest, d: Disk, input: Input, i: nat)
    requires Check(d, input).None? && i < |FilesToWrite(d, input)|
    ensures TrueEntry(digest, Rebuild(digest, d, input), NextManifest(digest, d, input).entries[i])
  {
    var f := FilesToWrite(d, input)[i];
    assert f in FilesToWrite(d, input);
    RebuiltAt(digest, d, input, f.path);
    TombstoneContent(d, input, f);
  }

  lemma OwnedAfter(digest: Digest, d: Disk, input: Input, path: string)
    ensures Owned(Valid(NextManifest(digest, d, input)), path) <==>
      HasPath(Planned(input), path) || (input.policy.TombstoneMissing? && Owned(ReadPrevious(d.manifest), path))
  {
    EntriesMatch(digest, FilesToWrite(d, input), path);
    WrittenFiles(d, input, path);
    MissingFacts(d, input);
  }

  lemma EntriesAreSafe(digest: Digest, files: seq<File>)
    requires SafeFiles(files) && DistinctPaths(files)
    ensures DistinctEntries(EntriesOf(digest, files))
    ensures forall e :: e in EntriesOf(digest, files) ==> SafePath(e.path)
  {
    var entries := EntriesOf(digest, files);
    forall e | e in entries ensures SafePath(e.path) {
      var i :| 0 <= i < |entries| && entries[i] == e;
      assert files[i] in files;
    }
  }

  /** The manifest a rebuild leaves reads back as valid, sorted by path. */
  lemma ManifestReadsBack(digest: Digest, d: Disk, input: Input)
    requires Check(d, input).None?
    ensures var m := NextManifest(digest, d, input);
      && ReadPrevious(Rebuild(digest, d, input).manifest) == Valid(m)
      && (forall i, j :: 0 <= i < j < |m.entries| ==> Text.Less(m.entries[i].path, m.entries[j].path))
  {
    NextManifestIsValid(digest, d, input);
    EffectsAt(digest, d, input);
    WrittenAreSorted(d, input);
    EntriesAreSorted(digest, FilesToWrite(d, input));
  }

  lemma NextManifestIsValid(digest: Digest, d: Disk, input: Input)
    requires Check(d, input).None?
    ensures ValidManifest(NextManifest(digest, d, input))
  {
    WrittenPathsDiffer(d, input);
    EntriesAreSafe(digest, FilesToWrite(d, input));
  }

  lemma EntriesAreSorted(digest: Digest, files: seq<File>)
    requires Ascending(files, FileBefore)
    ensures var entries := EntriesOf(digest, files);
      forall i, j :: 0 <= i < j < |entries| ==> Text.Less(entries[i].path, entries[j].path)
  {
    forall i, j | 0 <= i < j < |files| ensures Text.Less(files[i].path, files[j].path) {
      assert FileBefore(files[i], files[j]);
    }
  }

  /**
   * After an accepted rebuild the manifest reads back as valid, is sorted by path, owns exactly the plan's files
   * and under the tombstone policy the ones it owned before, and each entry is true of the disk.
   */
  lemma ManifestIsTrue(digest: Digest, d: Disk, input: Input)
    requires Check(d, input).None?
    ensures var after, m := Rebuild(digest, d, input), NextManifest(digest, d, input);
      && ReadPrevious(after.manifest) == Valid(m)
      && (forall i, j :: 0 <= i < j < |m.entries| ==> Text.Less(m.entries[i].path, m.entries[j].path))
      && (forall e :: e in m.entries ==> TrueEntry(digest, after, e))
      && (forall p :: Owned(Valid(m), p) <==>
            HasPath(Planned(input), p) || (input.policy.TombstoneMissing? && Owned(ReadPrevious(d.manifest), p)))
  {
    var after, m := Rebuild(digest, d, input), NextManifest(digest, d, input);
    ManifestReadsBack(digest, d, input);
    forall e | e in m.entries ensures TrueEntry(digest, after, e) {
      var i :| 0 <= i < |m.entries| && m.entries[i] == e;
      WrittenEntryIsTrue(digest, d, input, i);
    }
    forall p ensures Owned(Valid(m), p) <==>
      HasPath(Planned(input), p) || (input.policy.TombstoneMissing? && Owned(ReadPrevious(d.manifest), p))
    {
      OwnedAfter(digest, d, input, p);
    }
  }

  lemma {:induction false} ConceptsAreLive(concepts: seq<(string, string)>)
    ensures forall f :: f in ConceptFiles(concepts) ==> !f.tombstoned
  {
    if concepts != [] {
      ConceptsAreLive(concepts[..|concepts| - 1]);
    }
  }

  lemma PlanIsLive(input: Input)
    ensures forall f :: f in Planned(input) ==> !f.tombstoned
  {
    ConceptsAreLive(input.concepts);
    SortedFiles(ConceptFiles(input.concepts)
                + [File("index.md", input.indexText, false), File("log.md", input.logText, false)]);
  }

  lemma TombstoneContent(d: Disk, input: Input, f: File)
    requires f in FilesToWrite(d, input)
    ensures f.tombstoned ==> f.content == TOMBSTONE
    ensures !HasPath(Planned(input), f.path) ==> f == File(f.path, TOMBSTONE, true)
  {
    PlanIsLive(input);
    SortedFiles(Planned(input) + TombstonesAt(d, input));
    HasPathIn(Planned(input), f.path);
  }

  lemma WrittenAreSorted(d: Disk, input: Input)
    requires DistinctPaths(Planned(input))
    ensures Ascending(FilesToWrite(d, input), FileBefore)
  {
    PlanAndTombstonesDiffer(d, input);
    SortedFiles(Planned(input) + TombstonesAt(d, input));
  }

  // ----- nothing else is touched, even when a rebuild is interrupted -----

  lemma PrefixTouches(es: seq<Effect>, k: nat, path: string)
    requires k <= |es| && Touches(es[..k], path)
    ensures Touches(es, path)
  {
    var i :| 0 <= i < k && TouchesAt(es[..k][i], path);
    assert TouchesAt(es[i], path);
  }

  /** A rebuild writes to a path only if the last manifest owns it or nothing is there. */
  lemma TouchedIsOwnedOrNew(digest: Digest, d: Disk, input: Input, path: string)
    requires Check(d, input).None? && Touches(Effects(digest, d, input), path)
    ensures Owned(ReadPrevious(d.manifest), path) || path !in d.files
  {
    var es := Effects(digest, d, input);
    var i :| 0 <= i < |es| && TouchesAt(es[i], path);
    if es[i].Remove? {
      var _ := RemoveDeletesAFile(digest, d, input, i);
      MissingFacts(d, input);
    } else {
      var f := StoreWritesAFile(digest, d, input, i);
      assert f in FilesToWrite(d, input);
    }
  }

  /** Every path a rebuild writes to or deletes is safe, so none is that of the manifest, which it writes last. */
  lemma TouchedIsSafe(digest: Digest, d: Disk, input: Input, path: string)
    requires Check(d, input).None? && Touches(Effects(digest, d, input), path)
    ensures SafePath(path) && path != MANIFEST_FILE_NAME
  {
    var es := Effects(digest, d, input);
    var i :| 0 <= i < |es| && TouchesAt(es[i], path);
    if es[i].Remove? {
      var _ := RemoveDeletesAFile(digest, d, input, i);
      MissingFacts(d, input);
      OwnedIsSafe(d.manifest, path);
    } else {
      var f := StoreWritesAFile(digest, d, input, i);
    }
    assert MANIFEST_FILE_NAME[|MANIFEST_FILE_NAME| - 1] == 'n';
  }

  /** The disk when a rebuild stops after its first `k` writes. */
  function Interrupted(digest: Digest, d: Disk, input: Input, k: nat): Disk {
    if Check(d, input).None? then
      var es := Effects(digest, d, input);
      DoAll(d, es[..if k < |es| then k else |es|])
    else d
  }

  /** However far a rebuild gets, files the last manifest does not own stay as they are. */
  lemma ForeignFilesStay(digest: Digest, d: Disk, input: Input, k: nat, path: string)
    requires path in d.files && !Owned(ReadPrevious(d.manifest), path)
    ensures At(Interrupted(digest, d, input, k), path) == At(d, path)
    ensures At(Rebuild(digest, d, input), path) == At(d, path)
  {
    if Check(d, input).None? {
      var es := Effects(digest, d, input);
      if Touches(es, path) {
        TouchedIsOwnedOrNew(digest, d, input, path);
      }
      UntouchedStays(d, es, path);
      var n := if k < |es| then k else |es|;
      if Touches(es[..n], path) {
        PrefixTouches(es, n, path);
      }
      UntouchedStays(d, es[..n], path);
    }
  }

  // ----- repeating a rebuild -----

  lemma SamePlanSameFiles(d: Disk, c: Disk, input: Input)
    requires DistinctPaths(Planned(input))
    requires input.policy.TombstoneMissing? ==> forall p :: p in MissingAt(d, input) <==> p in MissingAt(c, input)
    ensures FilesToWrite(d, input) == FilesToWrite(c, input)
  {
    WrittenAreSorted(d, input);
    WrittenAreSorted(c, input);
    FilesAreOrdered();
    forall f ensures f in FilesToWrite(d, input) <==> f in FilesToWrite(c, input) {
      if f in FilesToWrite(d, input) {
        SameFile(d, c, input, f);
      }
      if f in FilesToWrite(c, input) {
        SameFile(c, d, input, f);
      }
    }
    AscendingIsUnique(FilesToWrite(d, input), FilesToWrite(c, input), FileBefore);
  }

  lemma SameFile(d: Disk, c: Disk, input: Input, f: File)
    requires f in FilesToWrite(d, input)
    requires input.policy.TombstoneMissing? ==> forall p :: p in MissingAt(d, input) ==> p in MissingAt(c, input)
    ensures f in FilesToWrite(c, input)
  {
    SortedFiles(Planned(input) + TombstonesAt(d, input));
    SortedFiles(Planned(input) + TombstonesAt(c, input));
    if f in TombstonesAt(d, input) {
      var p := f.path;
      var i :| 0 <= i < |TombstonesAt(d, input)| && TombstonesAt(d, input)[i] == f;
      assert MissingAt(d, input)[i] == p && p in MissingAt(d, input);
      var j :| 0 <= j < |MissingAt(c, input)| && MissingAt(c, input)[j] == p;
      assert TombstonesAt(c, input)[j] == f;
    }
  }

  lemma SomeElement(s: seq<string>)
    ensures s == [] || exists p :: p in s
  {
    if s != [] {
      assert s[0] in s;
    }
  }

  /** Once rebuilt, the same input has nothing left to delete and the same files to write. */
  lemma NothingLeftToDo(digest: Digest, d: Disk, input: Input)
    requires Check(d, input).None?
    ensures var after := Rebuild(digest, d, input);
      && Check(after, input).None?
      && FilesToDelete(after, input) == []
      && FilesToWrite(after, input) == FilesToWrite(d, input)
  {
    var after := Rebuild(digest, d, input);
    ManifestIsTrue(digest, d, input);
    AcceptedIff(d, input);
    AcceptedIff(after, input);
    MissingFacts(d, input);
    MissingFacts(after, input);
    SamePlanSameFiles(d, after, input);
    var left := FilesToDelete(after, input);
    assert forall p :: p !in left;
    SomeElement(left);
  }

  /** Repeating an accepted rebuild is accepted and changes nothing. */
  lemma RepeatChangesNothing(digest: Digest, d: Disk, input: Input)
    requires Check(d, input).None?
    ensures var after := Rebuild(digest, d, input);
      Check(after, input).None? && Rebuild(digest, after, input) == after
  {
    var after := Rebuild(digest, d, input);
    var again := Rebuild(digest, after, input);
    NothingLeftToDo(digest, d, input);
    EffectsAt(digest, d, input);
    EffectsAt(digest, after, input);
    forall p ensures At(again, p) == At(after, p) {
      RebuiltAt(digest, d, input, p);
      RebuiltAt(digest, after, input, p);
      HasPathIn(FilesToWrite(d, input), p);
    }
    SameDisk(again, after);
  }

  // ----- recovering from an interruption -----

  lemma {:induction false} NothingPublished(digest: Digest, d: Disk, input: Input, k: nat)
    requires Check(d, input).None? && k < |Effects(digest, d, input)|
    ensures Interrupted(digest, d, input, k).manifest == d.manifest
  {
    var es := Effects(digest, d, input);
    RemovesAre(FilesToDelete(d, input));
    StoresAre(FilesToWrite(d, input));
    forall e | e in es[..k] ensures !e.Publish? {
      var i :| 0 <= i < k && es[i] == e;
    }
    ManifestAfter(d, es[..k]);
  }

  /** The first `k` writes of a rebuild store a file that the last manifest does not own. */
  ghost predicate StoredNew(digest: Digest, d: Disk, input: Input, k: nat) {
    var es := Effects(digest, d, input);
    exists i :: 0 <= i < k && i < |es| && es[i].Store? && !Owned(ReadPrevious(d.manifest), es[i].path)
  }

  /** With the manifest not published yet, a rerun decides and does the same as the first run. */
  lemma RerunDoesTheSame(digest: Digest, d: Disk, c: Disk, input: Input)
    requires c.manifest == d.manifest
    ensures Effects(digest, c, input) == Effects(digest, d, input)
  {
  }

  lemma {:induction false} StoredIsPresent(d: Disk, es: seq<Effect>, k: nat, path: string)
    requires k <= |es| && forall i :: 0 <= i < |es| ==> !(es[i].Remove? && es[i].path == path)
    requires Touches(es[..k], path)
    ensures path in DoAll(d, es[..k]).files
  {
    var prefix := es[..k];
    TouchesLast(prefix, path);
    if !TouchesAt(prefix[k - 1], path) {
      assert prefix[..k - 1] == es[..k - 1];
      StoredIsPresent(d, es, k - 1, path);
    }
  }

  lemma NotOwnedWhen(d: Disk, c: Disk, input: Input, f: File)
    requires Check(d, input).None? && c.manifest == d.manifest
    requires f in FilesToWrite(d, input) && f.path in c.files && !Owned(ReadPrevious(d.manifest), f.path)
    ensures Check(c, input) == Some(NotOwned)
  {
    assert FilesToWrite(c, input) == FilesToWrite(d, input);
  }

  /** The writes of a rebuild, one by one. */
  lemma EffectIs(digest: Digest, d: Disk, input: Input, i: nat)
    requires i < |Effects(digest, d, input)|
    ensures var removed, out := FilesToDelete(d, input), FilesToWrite(d, input);
      Effects(digest, d, input)[i] ==
        if i < |removed| then Remove(removed[i])
        else if i < |removed| + |out| then Store(out[i - |removed|].path, out[i - |removed|].content)
        else Publish(NextManifest(digest, d, input))
  {
    RemovesAre(FilesToDelete(d, input));
    StoresAre(FilesToWrite(d, input));
  }

  lemma StoreWritesAFile(digest: Digest, d: Disk, input: Input, i: nat) returns (f: File)
    requires i < |Effects(digest, d, input)| && Effects(digest, d, input)[i].Store?
    ensures f in FilesToWrite(d, input) && f.path == Effects(digest, d, input)[i].path
  {
    EffectIs(digest, d, input, i);
    f := FilesToWrite(d, input)[i - |FilesToDelete(d, input)|];
  }

  /** A path stored by a rebuild is never one it deletes. */
  lemma StoredIsNotRemoved(digest: Digest, d: Disk, input: Input, i: nat, j: nat)
    requires var es := Effects(digest, d, input); i < |es| && j < |es| && es[i].Store? && es[j].Remove?
    ensures var es := Effects(digest, d, input); es[i].path != es[j].path
  {
    var f := StoreWritesAFile(digest, d, input, i);
    var path := RemoveDeletesAFile(digest, d, input, j);
    MissingFacts(d, input);
    HasPathIn(FilesToWrite(d, input), f.path);
    WrittenFiles(d, input, f.path);
  }

  lemma RemoveDeletesAFile(digest: Digest, d: Disk, input: Input, j: nat) returns (path: string)
    requires j < |Effects(digest, d, input)| && Effects(digest, d, input)[j].Remove?
    ensures path in FilesToDelete(d, input) && path == Effects(digest, d, input)[j].path
  {
    EffectIs(digest, d, input, j);
    path := FilesToDelete(d, input)[j];
  }

  lemma NewStoreBlocks(digest: Digest, d: Disk, input: Input, k: nat)
    requires Check(d, input).None? && k < |Effects(digest, d, input)| && StoredNew(digest, d, input, k)
    ensures Check(Interrupted(digest, d, input, k), input) == Some(NotOwned)
  {
    var es := Effects(digest, d, input);
    NothingPublished(digest, d, input, k);
    var i :| 0 <= i < k && es[i].Store? && !Owned(ReadPrevious(d.manifest), es[i].path);
    var path := es[i].path;
    assert TouchesAt(es[..k][i], path);
    forall j | 0 <= j < |es| ensures !(es[j].Remove? && es[j].path == path) {
      if es[j].Remove? {
        StoredIsNotRemoved(digest, d, input, i, j);
      }
    }
    StoredIsPresent(d, es, k, path);
    var f := StoreWritesAFile(digest, d, input, i);
    NotOwnedWhen(d, Interrupted(digest, d, input, k), input, f);
  }

  /** What an interrupted rebuild leaves at a file to write was there before, or it stored it. */
  lemma PresentIsOwned(digest: Digest, d: Disk, input: Input, k: nat, f: File)
    requires Check(d, input).None? && k < |Effects(digest, d, input)| && !StoredNew(digest, d, input, k)
    requires f in FilesToWrite(d, input) && f.path in Interrupted(digest, d, input, k).files
    ensures Owned(ReadPrevious(d.manifest), f.path)
  {
    var es := Effects(digest, d, input);
    if Touches(es[..k], f.path) {
      var i :| 0 <= i < k && TouchesAt(es[..k][i], f.path);
      if es[i].Remove? {
        var path := RemoveDeletesAFile(digest, d, input, i);
        MissingFacts(d, input);
      }
    } else {
      UntouchedStays(d, es[..k], f.path);
      assert At(Interrupted(digest, d, input, k), f.path) == At(d, f.path);
    }
  }

  lemma OwnedTargetsPass(d: Disk, c: Disk, input: Input)
    requires Check(d, input).None? && c.manifest == d.manifest && TargetsOwned(c, FilesToWrite(d, input))
    ensures Check(c, input).None?
  {
    assert FilesToWrite(c, input) == FilesToWrite(d, input);
  }

  lemma OwnedStoresDoNotBlock(digest: Digest, d: Disk, input: Input, k: nat)
    requires Check(d, input).None? && k < |Effects(digest, d, input)| && !StoredNew(digest, d, input, k)
    ensures Check(Interrupted(digest, d, input, k), input).None?
  {
    var c := Interrupted(digest, d, input, k);
    NothingPublished(digest, d, input, k);
    forall f | f in FilesToWrite(d, input) && f.path in c.files ensures Owned(ReadPrevious(d.manifest), f.path) {
      PresentIsOwned(digest, d, input, k, f);
    }
    OwnedTargetsPass(d, c, input);
  }

  /** Running the writes again after part of them ends as running them once. */
  lemma RerunEndsTheSame(digest: Digest, d: Disk, input: Input, k: nat)
    requires k <= |Effects(digest, d, input)|
    ensures var es := Effects(digest, d, input); DoAll(DoAll(d, es[..k]), es) == DoAll(d, es)
  {
    var es := Effects(digest, d, input);
    var c := DoAll(d, es[..k]);
    assert es[|es| - 1] == Publish(NextManifest(digest, d, input));
    forall p ensures At(DoAll(c, es), p) == At(DoAll(d, es), p) {
      if Touches(es, p) {
        TouchedIsDetermined(c, d, es, p);
      } else {
        UntouchedStays(c, es, p);
        UntouchedStays(d, es, p);
        if Touches(es[..k], p) {
          PrefixTouches(es, k, p);
        }
        UntouchedStays(d, es[..k], p);
      }
    }
    SameDisk(DoAll(c, es), DoAll(d, es));
  }

  /**
   * A rebuild interrupted before its manifest can be rerun exactly when it had stored no file new to the
   * manifest; the rerun then ends on the disk the first run would have left. Otherwise the file it stored is
   * one no manifest owns, and the rerun is refused.
   */
  lemma RecoversIff(digest: Digest, d: Disk, input: Input, k: nat)
    requires Check(d, input).None? && k < |Effects(digest, d, input)|
    ensures var c := Interrupted(digest, d, input, k);
      && (Check(c, input).None? <==> !StoredNew(digest, d, input, k))
      && (Check(c, input).None? ==> Rebuild(digest, c, input) == Rebuild(digest, d, input))
      && (Check(c, input).Some? ==> Check(c, input) == Some(NotOwned))
  {
    var c := Interrupted(digest, d, input, k);
    NothingPublished(digest, d, input, k);
    if StoredNew(digest, d, input, k) {
      NewStoreBlocks(digest, d, input, k);
    } else {
      OwnedStoresDoNotBlock(digest, d, input, k);
      RerunDoesTheSame(digest, d, c, input);
      RerunEndsTheSame(digest, d, input, k);
    }
  }

  /** The manifest already owns everything the plan would write. */
  ghost predicate PlanIsOwned(d: Disk, input: Input) {
    forall p :: HasPath(Planned(input), p) ==> Owned(ReadPrevious(d.manifest), p)
  }

  lemma PlannedIsWritten(d: Disk, input: Input, path: string) returns (f: File)
    requires HasPath(Planned(input), path)
    ensures f in FilesToWrite(d, input) && f.path == path
  {
    WrittenFiles(d, input, path);
    HasPathIn(FilesToWrite(d, input), path);
    f :| f in FilesToWrite(d, input) && f.path == path;
  }

  lemma OwnedPlanStoresNothingNew(digest: Digest, d: Disk, input: Input, k: nat)
    requires PlanIsOwned(d, input)
    ensures !StoredNew(digest, d, input, k)
  {
    var es := Effects(digest, d, input);
    forall i | 0 <= i < k && i < |es| && es[i].Store? ensures Owned(ReadPrevious(d.manifest), es[i].path) {
      var f := StoreWritesAFile(digest, d, input, i);
      HasPathIn(FilesToWrite(d, input), f.path);
      WrittenFiles(d, input, f.path);
      MissingFacts(d, input);
    }
  }

  /** The write that stores this file, and then the point where a rebuild can stop just after it. */
  lemma FileIsStored(digest: Digest, d: Disk, input: Input, f: File) returns (i: nat)
    requires f in FilesToWrite(d, input)
    ensures i + 1 < |Effects(digest, d, input)| && Effects(digest, d, input)[i] == Store(f.path, f.content)
  {
    var j := PlaceOf(FilesToWrite(d, input), f);
    i := |FilesToDelete(d, input)| + j;
    StoreIs(digest, d, input, j);
  }

  lemma PlaceOf(files: seq<File>, f: File) returns (j: nat)
    requires f in files
    ensures j < |files| && files[j] == f
  {
    j :| 0 <= j < |files| && files[j] == f;
  }

  lemma StoreIs(digest: Digest, d: Disk, input: Input, j: nat)
    requires j < |FilesToWrite(d, input)|
    ensures var i, f := |FilesToDelete(d, input)| + j, FilesToWrite(d, input)[j];
      i + 1 < |Effects(digest, d, input)| && Effects(digest, d, input)[i] == Store(f.path, f.content)
  {
    EffectsLength(digest, d, input);
    EffectIs(digest, d, input, |FilesToDelete(d, input)| + j);
  }

  lemma EffectsLength(digest: Digest, d: Disk, input: Input)
    ensures |Effects(digest, d, input)| == |FilesToDelete(d, input)| + |FilesToWrite(d, input)| + 1
  {
    RemovesAre(FilesToDelete(d, input));
    StoresAre(FilesToWrite(d, input));
  }

  /** Wherever the rebuild stops before its manifest, running it again is accepted. */
  ghost predicate AlwaysRerunnable(digest: Digest, d: Disk, input: Input) {
    forall k: nat {:trigger Interrupted(digest, d, input, k)} :: k < |Effects(digest, d, input)| ==>
      Check(Interrupted(digest, d, input, k), input).None?
  }

  /**
   * Before an accepted rebuild starts: every interruption of it can be rerun exactly when the manifest already
   * owns every planned file. A first rebuild never has this safety.
   */
  lemma AlwaysRerunnableIff(digest: Digest, d: Disk, input: Input)
    requires Check(d, input).None?
    ensures AlwaysRerunnable(digest, d, input) <==> PlanIsOwned(d, input)
  {
    if PlanIsOwned(d, input) {
      forall k: nat | k < |Effects(digest, d, input)| ensures Check(Interrupted(digest, d, input, k), input).None? {
        OwnedPlanStoresNothingNew(digest, d, input, k);
        RecoversIff(digest, d, input, k);
      }
    } else {
      var p :| HasPath(Planned(input), p) && !Owned(ReadPrevious(d.manifest), p);
      var f := PlannedIsWritten(d, input, p);
      var i := FileIsStored(digest, d, input, f);
      assert StoredNew(digest, d, input, i + 1);
      RecoversIff(digest, d, input, i + 1);
    }
  }

  const EMPTY_DISK := Disk(map[], Absent)

  /** A first rebuild, of any good input, that stops after some of its files cannot be rerun. */
  lemma FirstRebuildCannotBeRerun(digest: Digest, input: Input, k: nat)
    requires GoodInput(input) && 0 < k < |Effects(digest, EMPTY_DISK, input)|
    ensures Check(EMPTY_DISK, input).None?
    ensures Check(Interrupted(digest, EMPTY_DISK, input, k), input) == Some(NotOwned)
  {
    AcceptedIff(EMPTY_DISK, input);
    SortKeeps(Planned(input) + TombstonesAt(EMPTY_DISK, input), FileBefore);
    PlanHasIndex(input);
    EffectIs(digest, EMPTY_DISK, input, 0);
    assert StoredNew(digest, EMPTY_DISK, input, k);
    RecoversIff(digest, EMPTY_DISK, input, k);
  }

  lemma PlanHasIndex(input: Input)
    ensures |Planned(input)| >= 2
    ensures forall f :: f in Planned(input) ==>
      || f in ConceptFiles(input.concepts)
      || f == File("index.md", input.indexText, false)
      || f == File("log.md", input.logText, false)
  {
    SortKeeps(ConceptFiles(input.concepts)
              + [File("index.md", input.indexText, false), File("log.md", input.logText, false)], FileBefore);
  }

  /** The smallest such input: no concepts, only an empty index and an empty log. */
  const BARE := Input({0}, [], "", "", DeleteMissing)

  lemma {:induction false} OneSegment(path: string)
    requires '/' !in path
    ensures Split(path) == [path]
  {
    if path != "" {
      OneSegment(path[1..]);
      assert path == [path[0]] + path[1..];
    }
  }

  predicate PlainName(path: string) {
    '/' !in path && '\\' !in path && '\0' !in path && path != "~" && EndsInMd(path)
  }

  lemma PlainNameIsSafe(path: string)
    requires PlainName(path)
    ensures SafePath(path)
  {
    OneSegment(path);
    assert path[|path| - 1] == path[|path| - 3..][2] == 'd';
  }

  lemma TwoNamesAreGood(input: Input, a: File, b: File)
    requires input.zones != {} && Planned(input) == SortBy([a, b], FileBefore)
    requires PlainName(a.path) && PlainName(b.path) && a.path != b.path
    ensures GoodInput(input)
  {
    PlainNameIsSafe(a.path);
    PlainNameIsSafe(b.path);
    SortedFiles([a, b]);
  }

  lemma PlainFixedNames()
    ensures PlainName("index.md") && PlainName("log.md")
  {
  }

  lemma BareIsGood()
    ensures GoodInput(BARE)
  {
    var a, b := File("index.md", "", false), File("log.md", "", false);
    assert [] + [a, b] == [a, b];
    PlainFixedNames();
    TwoNamesAreGood(BARE, a, b);
  }

  /** A bare bundle rebuilt into an empty directory and stopped after its first file: the rerun is refused. */
  lemma BareRebuildCannotBeRerun(digest: Digest)
    ensures Check(EMPTY_DISK, BARE).None?
    ensures Check(Interrupted(digest, EMPTY_DISK, BARE, 1), BARE) == Some(NotOwned)
  {
    BareIsGood();
    PlanHasIndex(BARE);
    SortKeeps(Planned(BARE) + TombstonesAt(EMPTY_DISK, BARE), FileBefore);
    StoresAre(FilesToWrite(EMPTY_DISK, BARE));
    FirstRebuildCannotBeRerun(digest, BARE, 1);
  }

  // ----- sequences -----

  datatype Op =
    | RebuildOp(input: Input)
    | InterruptedOp(input: Input, writes: nat)
    | EditOp(path: string, content: Option<string>)
    | EditManifestOp(manifest: ManifestFile)

  function Apply(digest: Digest, d: Disk, op: Op): Disk {
    match op
    case RebuildOp(input) => Rebuild(digest, d, input)
    case InterruptedOp(input, writes) => Interrupted(digest, d, input, writes)
    case EditOp(path, content) =>
      if content.Some? then d.(files := d.files[path := content.value]) else d.(files := d.files - {path})
    case EditManifestOp(m) => d.(manifest := m)
  }

  function Execute(digest: Digest, d: Disk, ops: seq<Op>): Disk {
    if ops == [] then d else Apply(digest, Execute(digest, d, ops[..|ops| - 1]), ops[|ops| - 1])
  }

  /** The operation neither edits the path nor brings a manifest that lists it. */
  predicate LeavesAlone(op: Op, path: string) {
    && !(op.EditOp? && op.path == path)
    && (op.EditManifestOp? ==> !Owned(ReadPrevious(op.manifest), path))
  }

  /** A file that exists without being owned. */
  predicate Foreign(d: Disk, path: string) { path in d.files && !Owned(ReadPrevious(d.manifest), path) }

  lemma RebuildDoesNotAdopt(digest: Digest, d: Disk, input: Input, path: string)
    requires Foreign(d, path)
    ensures !Owned(ReadPrevious(Rebuild(digest, d, input).manifest), path)
  {
    if Check(d, input).None? {
      AcceptedIff(d, input);
      ManifestReadsBack(digest, d, input);
      OwnedAfter(digest, d, input, path);
    }
  }

  lemma InterruptionDoesNotAdopt(digest: Digest, d: Disk, input: Input, k: nat, path: string)
    requires Foreign(d, path)
    ensures !Owned(ReadPrevious(Interrupted(digest, d, input, k).manifest), path)
  {
    if Check(d, input).None? {
      var es := Effects(digest, d, input);
      if k < |es| {
        NothingPublished(digest, d, input, k);
      } else {
        assert es[..|es|] == es;
        RebuildDoesNotAdopt(digest, d, input, path);
      }
    }
  }

  lemma ForeignStaysForeign(digest: Digest, d: Disk, op: Op, path: string)
    requires Foreign(d, path) && LeavesAlone(op, path)
    ensures Foreign(Apply(digest, d, op), path) && At(Apply(digest, d, op), path) == At(d, path)
  {
    match op
    case RebuildOp(input) =>
      ForeignFilesStay(digest, d, input, 0, path);
      RebuildDoesNotAdopt(digest, d, input, path);
    case InterruptedOp(input, writes) =>
      ForeignFilesStay(digest, d, input, writes, path);
      InterruptionDoesNotAdopt(digest, d, input, writes, path);
    case EditOp(_, _) =>
    case EditManifestOp(_) =>
  }

  /**
   * A file that exists and that the manifest does not list stays as it is, and unlisted, over any sequence of
   * rebuilds with any inputs and changing policies, finished or interrupted, and of edits of other files and
   * of the manifest, unless an edit of the manifest itself brings the file in.
   */
  lemma {:induction false} ForeignFilesSurvive(digest: Digest, d: Disk, ops: seq<Op>, path: string)
    requires Foreign(d, path) && forall op :: op in ops ==> LeavesAlone(op, path)
    ensures Foreign(Execute(digest, d, ops), path)
    ensures At(Execute(digest, d, ops), path) == At(d, path)
  {
    if ops != [] {
      var n := |ops| - 1;
      assert ops[n] in ops && forall op :: op in ops[..n] ==> op in ops;
      ForeignFilesSurvive(digest, d, ops[..n], path);
      ForeignStaysForeign(digest, Execute(digest, d, ops[..n]), ops[n], path);
    }
  }

  /** The disk holds exactly what its manifest lists, with the listed content. */
  ghost predicate Exact(digest: Digest, d: Disk) {
    && !ReadPrevious(d.manifest).Corrupt?
    && (forall p :: p in d.files <==> Owned(ReadPrevious(d.manifest), p))
    && (d.manifest.Json? ==> forall e :: e in d.manifest.manifest.entries ==> TrueEntry(digest, d, e))
  }

  lemma RebuildIsExact(digest: Digest, d: Disk, input: Input)
    requires Exact(digest, d)
    ensures Exact(digest, Rebuild(digest, d, input))
    ensures Check(d, input).None? <==> GoodInput(input)
  {
    AcceptedIff(d, input);
    if Check(d, input).None? {
      var after := Rebuild(digest, d, input);
      ManifestIsTrue(digest, d, input);
      forall p ensures p in after.files <==> Owned(ReadPrevious(after.manifest), p) {
        RebuiltAt(digest, d, input, p);
        WrittenFiles(d, input, p);
        MissingFacts(d, input);
        HasPathIn(FilesToWrite(d, input), p);
      }
    }
  }

  /**
   * In a directory that only rebuilds wrote, whatever their inputs and policies, the manifest lists exactly the
   * files there with their contents, and a rebuild is refused only for its own input.
   */
  lemma {:induction false} RebuildsStayExact(digest: Digest, ops: seq<Op>, next: Input)
    requires forall op :: op in ops ==> op.RebuildOp?
    ensures Exact(digest, Execute(digest, EMPTY_DISK, ops))
    ensures Check(Execute(digest, EMPTY_DISK, ops), next).None? <==> GoodInput(next)
  {
    var d := EMPTY_DISK;
    if ops != [] {
      var n := |ops| - 1;
      assert ops[n] in ops;
      RebuildsStayExact(digest, ops[..n], next);
      RebuildIsExact(digest, Execute(digest, d, ops[..n]), ops[n].input);
    }
    RebuildIsExact(digest, Execute(digest, d, ops), next);
  }
}
