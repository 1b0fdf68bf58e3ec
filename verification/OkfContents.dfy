/**
 * What a rebuild accepts, leaves on disk and reports, told from its input and the last manifest alone, without
 * the plan that the rebuild makes on the way.
 */
module OkfContents {
  import opened Wrappers
  import opened Ordering
  import Text
  import opened Okf
  import opened OkfHistory

  /** The input asks for this text at this path. */
  predicate Asks(input: Input, path: string, text: string) {
    || (path, text) in input.concepts
    || (path == "index.md" && text == input.indexText)
    || (path == "log.md" && text == input.logText)
  }

  ghost predicate AsksFor(input: Input, path: string) { exists text :: Asks(input, path, text) }

  /** The manifest file names this path. */
  ghost predicate Named(m: ManifestFile, path: string) {
    m.Json? && exists e :: e in m.manifest.entries && e.path == path
  }

  /** Named by the last manifest and not asked for now. */
  ghost predicate Stale(d: Disk, input: Input, path: string) { Named(d.manifest, path) && !AsksFor(input, path) }

  // ----- the plan says what the input asks for -----

  lemma {:induction false} ConceptsAre(concepts: seq<(string, string)>, f: File)
    ensures f in ConceptFiles(concepts) <==> (f.path, f.content) in concepts && !f.tombstoned
  {
    if concepts != [] {
      var n := |concepts| - 1;
      assert concepts == concepts[..n] + [concepts[n]];
      ConceptsAre(concepts[..n], f);
    }
  }

  lemma PlanAsks(input: Input, f: File)
    ensures f in Planned(input) <==> Asks(input, f.path, f.content) && !f.tombstoned
  {
    ConceptsAre(input.concepts, f);
    SortedFiles(ConceptFiles(input.concepts)
                + [File("index.md", input.indexText, false), File("log.md", input.logText, false)]);
  }

  lemma PlannedIffAsked(input: Input, path: string)
    ensures HasPath(Planned(input), path) <==> AsksFor(input, path)
  {
    HasPathIn(Planned(input), path);
    if f :| f in Planned(input) && f.path == path {
      PlanAsks(input, f);
      assert Asks(input, path, f.content);
    }
    if text :| Asks(input, path, text) {
      PlanAsks(input, File(path, text, false));
    }
  }

  lemma OwnedIffNamed(m: ManifestFile, path: string)
    requires !ReadPrevious(m).Corrupt?
    ensures Owned(ReadPrevious(m), path) <==> Named(m, path)
  {
    if Named(m, path) {
      var e :| e in m.manifest.entries && e.path == path;
      var i :| 0 <= i < |m.manifest.entries| && m.manifest.entries[i] == e;
      assert m.manifest.entries[i].path == path;
    }
  }

  lemma MissingIffStale(d: Disk, input: Input, path: string)
    requires !ReadPrevious(d.manifest).Corrupt?
    ensures path in MissingAt(d, input) <==> Stale(d, input, path)
  {
    MissingFacts(d, input);
    OwnedIffNamed(d.manifest, path);
    PlannedIffAsked(input, path);
  }

  // ----- what is written -----

  /** What an accepted rebuild puts at a path: what the input asks for, or a tombstone. */
  ghost predicate Puts(d: Disk, input: Input, f: File) {
    || (Asks(input, f.path, f.content) && !f.tombstoned)
    || (input.policy.TombstoneMissing? && Stale(d, input, f.path) && f.content == TOMBSTONE && f.tombstoned)
  }

  lemma TombstonesAre(d: Disk, input: Input, f: File)
    requires !ReadPrevious(d.manifest).Corrupt?
    ensures f in TombstonesAt(d, input) <==>
      input.policy.TombstoneMissing? && Stale(d, input, f.path) && f.content == TOMBSTONE && f.tombstoned
  {
    var paths := MissingAt(d, input);
    MissingIffStale(d, input, f.path);
    if input.policy.TombstoneMissing? && f.path in paths && f.content == TOMBSTONE && f.tombstoned {
      var i :| 0 <= i < |paths| && paths[i] == f.path;
      assert TombstonesAt(d, input)[i] == f;
    }
  }

  lemma WrittenIffPut(d: Disk, input: Input, f: File)
    requires !ReadPrevious(d.manifest).Corrupt?
    ensures f in FilesToWrite(d, input) <==> Puts(d, input, f)
  {
    SortedFiles(Planned(input) + TombstonesAt(d, input));
    PlanAsks(input, f);
    TombstonesAre(d, input, f);
  }

  /** What stands at a path after an accepted rebuild. */
  ghost predicate LeftAt(d: Disk, after: Disk, input: Input, path: string) {
    && (forall text :: Asks(input, path, text) ==> At(after, path) == Some(text))
    && (Stale(d, input, path) ==> At(after, path) == if input.policy.DeleteMissing? then None else Some(TOMBSTONE))
    && (!AsksFor(input, path) && !Named(d.manifest, path) ==> At(after, path) == At(d, path))
  }

  /**
   * After an accepted rebuild every path the input asks for holds exactly that text; every other path the last
   * manifest names is gone or holds a tombstone, as the policy says; and every remaining path is as before.
   */
  lemma RebuildLeaves(digest: Digest, d: Disk, input: Input, path: string)
    requires Check(d, input).None?
    ensures LeftAt(d, Rebuild(digest, d, input), input, path)
  {
    var after, out := Rebuild(digest, d, input), FilesToWrite(d, input);
    AcceptedIff(d, input);
    RebuiltAt(digest, d, input, path);
    forall text | Asks(input, path, text) ensures At(after, path) == Some(text) {
      WrittenIffPut(d, input, File(path, text, false));
    }
    MissingIffStale(d, input, path);
    HasPathIn(out, path);
    if Stale(d, input, path) && input.policy.TombstoneMissing? {
      WrittenIffPut(d, input, File(path, TOMBSTONE, true));
    }
    if f :| f in out && f.path == path {
      WrittenIffPut(d, input, f);
    }
  }

  /** The manifest it leaves: every file put there with the digest of its text, in path order, and nothing else. */
  lemma ManifestLists(digest: Digest, d: Disk, input: Input)
    requires Check(d, input).None?
    ensures var m := Rebuild(digest, d, input).manifest;
      && m.Json? && m.manifest.zones == input.zones && m.manifest.policy == input.policy
      && (forall e :: e in m.manifest.entries <==> exists text ::
            Puts(d, input, File(e.path, text, e.tombstoned)) && e.digest == digest(text))
      && forall i, j :: 0 <= i < j < |m.manifest.entries| ==>
           Text.Less(m.manifest.entries[i].path, m.manifest.entries[j].path)
  {
    var out, next := FilesToWrite(d, input), NextManifest(digest, d, input);
    AcceptedIff(d, input);
    ManifestIsTrue(digest, d, input);
    EffectsAt(digest, d, input);
    forall e ensures e in next.entries <==> exists text ::
        Puts(d, input, File(e.path, text, e.tombstoned)) && e.digest == digest(text)
    {
      if e in next.entries {
        var i :| 0 <= i < |next.entries| && next.entries[i] == e;
        WrittenIffPut(d, input, out[i]);
        assert out[i] == File(e.path, out[i].content, e.tombstoned);
      }
      if text :| Puts(d, input, File(e.path, text, e.tombstoned)) && e.digest == digest(text) {
        WrittenIffPut(d, input, File(e.path, text, e.tombstoned));
        var i :| 0 <= i < |out| && out[i] == File(e.path, text, e.tombstoned);
        assert next.entries[i] == e;
      }
    }
  }

  // ----- what is reported -----

  /**
   * The two lists of the report: the paths asked for and under the tombstone policy the stale ones, and under
   * the other policy the stale ones; each in path order.
   */
  lemma ReportLists(d: Disk, input: Input)
    requires Check(d, input).None?
    ensures var written, deleted := PathsOf(FilesToWrite(d, input)), FilesToDelete(d, input);
      && (forall p :: p in written <==> AsksFor(input, p) || (input.policy.TombstoneMissing? && Stale(d, input, p)))
      && (forall p :: p in deleted <==> input.policy.DeleteMissing? && Stale(d, input, p))
      && Ascending(written, Text.Less) && Ascending(deleted, Text.Less)
  {
    var out, written, deleted := FilesToWrite(d, input), PathsOf(FilesToWrite(d, input)), FilesToDelete(d, input);
    AcceptedIff(d, input);
    forall p ensures p in written <==> AsksFor(input, p) || (input.policy.TombstoneMissing? && Stale(d, input, p)) {
      WrittenFiles(d, input, p);
      PlannedIffAsked(input, p);
      MissingIffStale(d, input, p);
      if HasPath(out, p) {
        var i :| 0 <= i < |out| && out[i].path == p;
        assert written[i] == p;
      }
    }
    forall p ensures p in deleted <==> input.policy.DeleteMissing? && Stale(d, input, p) {
      MissingIffStale(d, input, p);
    }
    WrittenAreSorted(d, input);
    forall i, j | 0 <= i < j < |written| ensures Text.Less(written[i], written[j]) {
      assert FileBefore(out[i], out[j]);
    }
    MissingAscend(d, input);
  }

  lemma MissingAscend(d: Disk, input: Input)
    ensures Ascending(MissingAt(d, input), Text.Less)
  {
    var previous := ReadPrevious(d.manifest);
    if previous.Valid? {
      var paths := PathsMissing(previous.manifest.entries, Planned(input));
      PathsMissingFacts(previous.manifest.entries, Planned(input));
      Text.LessOrders();
      SortOfDistinct(paths, Text.Less);
    }
  }

  // ----- what is accepted -----

  /** No path is asked for twice. */
  ghost predicate AskedOnce(input: Input) {
    && (forall i, j :: 0 <= i < j < |input.concepts| ==> input.concepts[i].0 != input.concepts[j].0)
    && forall c :: c in input.concepts ==> c.0 != "index.md" && c.0 != "log.md"
  }

  ghost predicate AskedSafely(input: Input) { forall p :: AsksFor(input, p) ==> SafePath(p) }

  /** Nothing that is asked for exists under a path the manifest does not name, as far as it can be read. */
  ghost predicate AskedFreely(d: Disk, input: Input) {
    forall p :: AsksFor(input, p) && p in d.files ==> !ReadPrevious(d.manifest).Corrupt? && Named(d.manifest, p)
  }

  lemma DistinctConcepts(concepts: seq<(string, string)>)
    ensures DistinctPaths(ConceptFiles(concepts)) <==>
      forall i, j :: 0 <= i < j < |concepts| ==> concepts[i].0 != concepts[j].0
  {
    ConceptsInOrder(concepts);
    var files := ConceptFiles(concepts);
    if DistinctPaths(files) {
      forall i, j | 0 <= i < j < |concepts| ensures concepts[i].0 != concepts[j].0 {
        assert files[i].path != files[j].path;
      }
    }
  }

  lemma {:induction false} ConceptsInOrder(concepts: seq<(string, string)>)
    ensures |ConceptFiles(concepts)| == |concepts|
    ensures forall i :: 0 <= i < |concepts| ==> ConceptFiles(concepts)[i].path == concepts[i].0
  {
    if concepts != [] {
      ConceptsInOrder(concepts[..|concepts| - 1]);
    }
  }

  lemma SortedPathsDiffer(files: seq<File>)
    ensures DistinctPaths(SortBy(files, FileBefore)) <==> DistinctPaths(files)
  {
    var s := SortBy(files, FileBefore);
    SortedFiles(files);
    SortIsDistinct(files, FileBefore);
    if DistinctPaths(s) {
      forall i, j | 0 <= i < j < |files| ensures files[i].path != files[j].path {
        assert files[i] in s && files[j] in s && files[i] != files[j];
      }
    }
  }

  lemma PlanPathsDiffer(input: Input)
    ensures DistinctPaths(Planned(input)) <==> AskedOnce(input)
  {
    var concepts := ConceptFiles(input.concepts);
    var index, log := File("index.md", input.indexText, false), File("log.md", input.logText, false);
    var all := concepts + [index, log];
    SortedPathsDiffer(all);
    DistinctConcepts(input.concepts);
    ConceptsInOrder(input.concepts);
    if DistinctPaths(all) {
      forall c | c in input.concepts ensures c.0 != "index.md" && c.0 != "log.md" {
        var i :| 0 <= i < |input.concepts| && input.concepts[i] == c;
        assert all[i] == concepts[i] && all[|concepts|] == index && all[|concepts| + 1] == log;
      }
      forall i, j | 0 <= i < j < |concepts| ensures concepts[i].path != concepts[j].path {
        assert all[i] == concepts[i] && all[j] == concepts[j];
      }
    }
    if AskedOnce(input) {
      forall i | 0 <= i < |concepts| ensures concepts[i].path != "index.md" && concepts[i].path != "log.md" {
        assert input.concepts[i] in input.concepts;
      }
      assert "index.md"[0] != "log.md"[0];
    }
  }

  lemma PlanIsSafe(input: Input)
    ensures SafeFiles(Planned(input)) <==> AskedSafely(input)
  {
    forall p | AsksFor(input, p) && SafeFiles(Planned(input)) ensures SafePath(p) {
      PlannedIffAsked(input, p);
      HasPathIn(Planned(input), p);
    }
    forall f | f in Planned(input) && AskedSafely(input) ensures SafePath(f.path) {
      PlanAsks(input, f);
      assert AsksFor(input, f.path);
    }
  }

  predicate Unreadable(m: ManifestFile) {
    m.Garbage? || (m.Json? && (
      || (exists e :: e in m.manifest.entries && !SafePath(e.path))
      || exists i, j :: 0 <= i < j < |m.manifest.entries| && m.manifest.entries[i].path == m.manifest.entries[j].path))
  }

  lemma TargetsAreFree(d: Disk, input: Input)
    ensures TargetsOwned(d, FilesToWrite(d, input)) <==> AskedFreely(d, input)
  {
    var out := FilesToWrite(d, input);
    forall p
      ensures HasPath(out, p) <==> AsksFor(input, p) || (input.policy.TombstoneMissing? && p in MissingAt(d, input))
    {
      WrittenFiles(d, input, p);
      PlannedIffAsked(input, p);
    }
    MissingFacts(d, input);
    forall p | AsksFor(input, p) && p in d.files && TargetsOwned(d, out)
      ensures !ReadPrevious(d.manifest).Corrupt? && Named(d.manifest, p)
    {
      HasPathIn(out, p);
      OwnedIffNamed(d.manifest, p);
    }
    forall f | f in out && f.path in d.files && AskedFreely(d, input) ensures Owned(ReadPrevious(d.manifest), f.path) {
      HasPathIn(out, f.path);
      if AsksFor(input, f.path) {
        OwnedIffNamed(d.manifest, f.path);
      }
    }
  }

  /** Which rebuilds are refused, and with which error: the checks in their order. */
  lemma RefusedWith(d: Disk, input: Input)
    ensures Check(d, input) ==
      if input.zones == {} then Some(NoVisibleZones)
      else if !AskedOnce(input) then Some(PathCollision)
      else if !AskedSafely(input) then Some(UnsafePath)
      else if !AskedFreely(d, input) then Some(NotOwned)
      else if Unreadable(d.manifest) then Some(ManifestCorrupt)
      else None
  {
    PlanPathsDiffer(input);
    PlanIsSafe(input);
    TargetsAreFree(d, input);
    AcceptedIff(d, input);
    if DistinctPaths(Planned(input)) {
      WrittenPathsDiffer(d, input);
      WrittenIsSafe(d, input);
    }
  }

  lemma WrittenIsSafe(d: Disk, input: Input)
    ensures SafeFiles(Planned(input)) ==> SafeFiles(FilesToWrite(d, input))
  {
    if SafeFiles(Planned(input)) {
      forall f | f in FilesToWrite(d, input) ensures SafePath(f.path) {
        HasPathIn(FilesToWrite(d, input), f.path);
        WrittenFiles(d, input, f.path);
        HasPathIn(Planned(input), f.path);
        MissingFacts(d, input);
        if !HasPath(Planned(input), f.path) {
          OwnedIsSafe(d.manifest, f.path);
        }
      }
    }
  }

  // ----- which paths are safe -----

  predicate GoodSegment(s: string) {
    s != "" && s != "." && s != ".." && s != "~" && '/' !in s && '\\' !in s && '\0' !in s
  }

  predicate InSome(segments: seq<string>, c: char) { exists s :: s in segments && c in s }

  lemma InSomeFirst(first: string, rest: seq<string>, c: char)
    ensures InSome([first] + rest, c) <==> c in first || InSome(rest, c)
  {
    if InSome(rest, c) {
      var s :| s in rest && c in s;
      assert s in [first] + rest;
    }
    assert first in [first] + rest;
  }

  lemma {:induction false} SegmentsOfSplit(path: string, c: char)
    ensures c in path && c != '/' <==> InSome(Split(path), c)
  {
    if path != "" {
      var rest := Split(path[1..]);
      SegmentsOfSplit(path[1..], c);
      assert path == [path[0]] + path[1..];
      if path[0] == '/' {
        InSomeFirst("", rest, c);
      } else {
        assert rest == [rest[0]] + rest[1..];
        InSomeFirst(rest[0], rest[1..], c);
        InSomeFirst([path[0]] + rest[0], rest[1..], c);
      }
    }
  }

  lemma {:induction false} JoinThenSplit(segments: seq<string>)
    requires segments != [] && !InSome(segments, '/')
    ensures Split(JoinSlash(segments)) == segments
  {
    var first, rest := segments[0], segments[1..];
    assert segments == [first] + rest;
    InSomeFirst(first, rest, '/');
    if rest == [] {
      SplitFirst(first, "");
      assert first + "" == first;
    } else {
      JoinThenSplit(rest);
      var tail := "/" + JoinSlash(rest);
      assert tail[1..] == JoinSlash(rest) && Split(tail) == [""] + rest;
      SplitFirst(first, tail);
      assert first + "/" + JoinSlash(rest) == first + tail && first + "" == first;
    }
  }

  lemma {:induction false} SplitFirst(first: string, rest: string)
    requires '/' !in first
    ensures Split(first + rest) == [first + Split(rest)[0]] + Split(rest)[1..]
  {
    var segments := Split(rest);
    if first == "" {
      assert first + rest == rest && first + segments[0] == segments[0];
    } else {
      assert first == [first[0]] + first[1..];
      assert (first + rest)[1..] == first[1..] + rest;
      SplitFirst(first[1..], rest);
      assert [first[0]] + (first[1..] + segments[0]) == first + segments[0];
      assert Split(first[1..] + rest)[1..] == segments[1..];
    }
  }

  ghost predicate JoinsTo(segments: seq<string>, path: string) {
    segments != [] && path == JoinSlash(segments) && forall s :: s in segments ==> GoodSegment(s)
  }

  /** A path is accepted exactly when it is segments joined by slashes, none of them special, and ends in `.md`. */
  lemma PathIsSafeIff(path: string)
    ensures NormalizePath(path).Ok? <==>
      |path| >= 3 && path[|path| - 3..] == ".md" && exists segments :: JoinsTo(segments, path)
  {
    SplitThenJoin(path);
    SegmentsOfSplit(path, '/');
    SegmentsOfSplit(path, '\\');
    SegmentsOfSplit(path, '\0');
    if NormalizePath(path).Ok? {
      assert JoinsTo(Split(path), path);
    }
    if EndsInMd(path) {
      if segments :| JoinsTo(segments, path) {
        JoinThenSplit(segments);
        SafeWhenJoined(segments, path);
      }
    }
  }

  lemma LeadingSlash(path: string)
    ensures path != "" && path[0] == '/' ==> Split(path)[0] == ""
  {
  }

  lemma SafeWhenJoined(segments: seq<string>, path: string)
    requires JoinsTo(segments, path) && Split(path) == segments && EndsInMd(path)
    ensures SafePath(path)
  {
    SegmentsOfSplit(path, '\\');
    SegmentsOfSplit(path, '\0');
    assert segments[0] in segments && GoodSegment(segments[0]);
    LeadingSlash(path);
  }
}
