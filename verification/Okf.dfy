/**
 * The OKF projection: which files a rebuild may touch, decided by the manifest the last rebuild left. A disk
 * is a map from bundle-relative path to content, and the manifest file beside it; every write is atomic.
 */
module Okf {
  import opened Wrappers
  import opened Ordering
  import Text

  // ----- paths -----

  const MANIFEST_FILE_NAME := ".carpeos-okf-projection-manifest.json"

  function Split(path: string): (r: seq<string>)
    ensures r != []
  {
    if path == "" then [""]
    else
      var rest := Split(path[1..]);
      if path[0] == '/' then [""] + rest else [[path[0]] + rest[0]] + rest[1..]
  }

  function JoinSlash(segments: seq<string>): string
    requires segments != []
  {
    if |segments| == 1 then segments[0] else segments[0] + "/" + JoinSlash(segments[1..])
  }

  predicate UnsafeSegment(s: string) { s == "" || s == "." || s == ".." || s == "~" }

  predicate EndsInMd(path: string) { |path| >= 3 && path[|path| - 3..] == ".md" }

  predicate SafePath(path: string) {
    && path != "" && path[0] != '/' && '\\' !in path && '\0' !in path
    && (forall s :: s in Split(path) ==> !UnsafeSegment(s))
    && EndsInMd(path)
  }

  datatype Error = NoVisibleZones | PathCollision | UnsafePath | NotOwned | ManifestCorrupt

  /** `normalizeOkfRelativePath` */
  function NormalizePath(path: string): Result<string, Error> {
    if SafePath(path) then Ok(JoinSlash(Split(path))) else Err(UnsafePath)
  }

  // ----- manifests -----

  datatype Policy = DeleteMissing | TombstoneMissing

  datatype File = File(path: string, content: string, tombstoned: bool)

  datatype Entry = Entry(path: string, digest: string, tombstoned: bool)

  datatype Manifest = Manifest(zones: set<int>, policy: Policy, entries: seq<Entry>)

  /** The manifest file: absent, not readable as a manifest, or holding one. */
  datatype ManifestFile = Absent | Garbage | Json(manifest: Manifest)

  datatype Previous = Missing | Valid(manifest: Manifest) | Corrupt

  predicate DistinctEntries(entries: seq<Entry>) {
    forall i, j :: 0 <= i < j < |entries| ==> entries[i].path != entries[j].path
  }

  /** `assertValidOkfManifest` */
  predicate ValidManifest(m: Manifest) {
    (forall e :: e in m.entries ==> SafePath(e.path)) && DistinctEntries(m.entries)
  }

  /** `readPreviousOkfManifest` */
  function ReadPrevious(m: ManifestFile): Previous {
    match m
    case Absent => Missing
    case Garbage => Corrupt
    case Json(manifest) => if ValidManifest(manifest) then Valid(manifest) else Corrupt
  }

  // ----- the plan -----

  datatype Input = Input(
    zones: set<int>, concepts: seq<(string, string)>, indexText: string, logText: string, policy: Policy)

  type Digest = string -> string

  predicate FileBefore(a: File, b: File) { Text.Less(a.path, b.path) }

  predicate DistinctPaths(files: seq<File>) {
    forall i, j :: 0 <= i < j < |files| ==> files[i].path != files[j].path
  }

  function ConceptFiles(concepts: seq<(string, string)>): seq<File> {
    if concepts == [] then []
    else
      var n := |concepts| - 1;
      ConceptFiles(concepts[..n]) + [File(concepts[n].0, concepts[n].1, false)]
  }

  /** `buildOkfProjectionPlan` before its checks: concepts, index and log, sorted by path. */
  function Planned(input: Input): seq<File> {
    SortBy(ConceptFiles(input.concepts)
           + [File("index.md", input.indexText, false), File("log.md", input.logText, false)], FileBefore)
  }

  predicate SafeFiles(files: seq<File>) { forall f :: f in files ==> SafePath(f.path) }

  function EntriesOf(digest: Digest, files: seq<File>): (r: seq<Entry>)
    ensures |r| == |files|
    ensures forall i :: 0 <= i < |files| ==> r[i] == Entry(files[i].path, digest(files[i].content), files[i].tombstoned)
  {
    if files == [] then []
    else
      var n := |files| - 1;
      EntriesOf(digest, files[..n]) + [Entry(files[n].path, digest(files[n].content), files[n].tombstoned)]
  }

  const TOMBSTONE := "# Erased Projection"

  function Tombstones(paths: seq<string>): (r: seq<File>)
    ensures |r| == |paths| && forall i :: 0 <= i < |paths| ==> r[i] == File(paths[i], TOMBSTONE, true)
  {
    if paths == [] then []
    else Tombstones(paths[..|paths| - 1]) + [File(paths[|paths| - 1], TOMBSTONE, true)]
  }

  /** Some file of the list has this path. */
  predicate HasPath(files: seq<File>, path: string) { exists i :: 0 <= i < |files| && files[i].path == path }

  predicate Listed(entries: seq<Entry>, path: string) { exists i :: 0 <= i < |entries| && entries[i].path == path }

  /** The paths the last manifest owns. */
  predicate Owned(p: Previous, path: string) { p.Valid? && Listed(p.manifest.entries, path) }

  function PathsMissing(entries: seq<Entry>, files: seq<File>): seq<string> {
    if entries == [] then []
    else
      var n := |entries| - 1;
      PathsMissing(entries[..n], files) + (if HasPath(files, entries[n].path) then [] else [entries[n].path])
  }

  /** `missingPreviousFiles` */
  function MissingFiles(p: Previous, files: seq<File>): seq<string> {
    if p.Valid? then SortBy(PathsMissing(p.manifest.entries, files), Text.Less) else []
  }

  // ----- what a rebuild does to the disk -----

  datatype Disk = Disk(files: map<string, string>, manifest: ManifestFile)

  datatype Effect = Remove(path: string) | Store(path: string, content: string) | Publish(manifest: Manifest)

  function Do(d: Disk, e: Effect): Disk {
    match e
    case Remove(path) => d.(files := d.files - {path})
    case Store(path, content) => d.(files := d.files[path := content])
    case Publish(m) => d.(manifest := Json(m))
  }

  function DoAll(d: Disk, es: seq<Effect>): Disk {
    if es == [] then d else Do(DoAll(d, es[..|es| - 1]), es[|es| - 1])
  }

  function Removes(paths: seq<string>): seq<Effect> {
    if paths == [] then [] else Removes(paths[..|paths| - 1]) + [Remove(paths[|paths| - 1])]
  }

  function Stores(files: seq<File>): seq<Effect> {
    if files == [] then []
    else Stores(files[..|files| - 1]) + [Store(files[|files| - 1].path, files[|files| - 1].content)]
  }

  function MissingAt(d: Disk, input: Input): seq<string> { MissingFiles(ReadPrevious(d.manifest), Planned(input)) }

  /** The files a rebuild writes: the plan and, under the tombstone policy, a tombstone for each missing file. */
  function FilesToWrite(d: Disk, input: Input): seq<File> {
    var tombstones := if input.policy.TombstoneMissing? then Tombstones(MissingAt(d, input)) else [];
    SortBy(Planned(input) + tombstones, FileBefore)
  }

  function FilesToDelete(d: Disk, input: Input): seq<string> {
    if input.policy.DeleteMissing? then MissingAt(d, input) else []
  }

  function NextManifest(digest: Digest, d: Disk, input: Input): Manifest {
    Manifest(input.zones, input.policy, EntriesOf(digest, FilesToWrite(d, input)))
  }

  predicate TargetsOwned(d: Disk, files: seq<File>) {
    forall f :: f in files && f.path in d.files ==> Owned(ReadPrevious(d.manifest), f.path)
  }

  /** Every check, in the order the rebuild makes them; none of them writes. */
  function Check(d: Disk, input: Input): Option<Error> {
    if input.zones == {} then Some(NoVisibleZones)
    else if !DistinctPaths(Planned(input)) then Some(PathCollision)
    else if !SafeFiles(Planned(input)) then Some(UnsafePath)
    else if !DistinctPaths(FilesToWrite(d, input)) then Some(PathCollision)
    else if !SafeFiles(FilesToWrite(d, input)) then Some(UnsafePath)
    else if !TargetsOwned(d, FilesToWrite(d, input)) then Some(NotOwned)
    else if ReadPrevious(d.manifest).Corrupt? then Some(ManifestCorrupt)
    else None
  }

  /** The writes of an accepted rebuild, in order: deletions, files, and the manifest last. */
  function Effects(digest: Digest, d: Disk, input: Input): seq<Effect> {
    Removes(FilesToDelete(d, input)) + Stores(FilesToWrite(d, input)) + [Publish(NextManifest(digest, d, input))]
  }

  function Rebuild(digest: Digest, d: Disk, input: Input): Disk {
    if Check(d, input).None? then DoAll(d, Effects(digest, d, input)) else d
  }

  function PathsOf(files: seq<File>): (r: seq<string>)
    ensures |r| == |files| && forall i :: 0 <= i < |files| ==> r[i] == files[i].path
  {
    if files == [] then [] else PathsOf(files[..|files| - 1]) + [files[|files| - 1].path]
  }

  datatype Report = Report(status: Previous, written: seq<string>, deleted: seq<string>, preservedBecauseCorrupt: bool)

  class Projection {
    const digest: Digest
    var files: map<string, string>
    var manifest: ManifestFile

    ghost function Model(): Disk
      reads this
    {
      Disk(files, manifest)
    }

    constructor (digest: Digest)
      ensures Model() == Disk(map[], Absent) && this.digest == digest
    {
      this.digest, files, manifest := digest, map[], Absent;
    }

    method DeleteFiles(paths: seq<string>)
      modifies this
      ensures Model() == DoAll(old(Model()), Removes(paths))
    {
      for i := 0 to |paths|
        invariant Model() == DoAll(old(Model()), Removes(paths[..i]))
      {
        assert paths[..i + 1][..i] == paths[..i];
        files := files - {paths[i]};
      }
      assert paths[..|paths|] == paths;
    }

    method WriteFiles(out: seq<File>)
      modifies this
      ensures Model() == DoAll(old(Model()), Stores(out))
    {
      for i := 0 to |out|
        invariant Model() == DoAll(old(Model()), Stores(out[..i]))
      {
        assert out[..i + 1][..i] == out[..i];
        files := files[out[i].path := out[i].content];
      }
      assert out[..|out|] == out;
    }

    /** `assertUniquePaths` */
    method UniquePaths(out: seq<File>) returns (unique: bool)
      ensures unique <==> DistinctPaths(out)
    {
      var paths: set<string> := {};
      for i := 0 to |out|
        invariant DistinctPaths(out[..i])
        invariant forall p :: p in paths <==> HasPath(out[..i], p)
      {
        if out[i].path in paths {
          var k :| 0 <= k < i && out[..i][k].path == out[i].path;
          assert out[k].path == out[i].path;
          return false;
        }
        forall k | 0 <= k < i ensures out[k].path != out[i].path {
          assert out[..i][k].path in paths;
        }
        paths := paths + {out[i].path};
        forall p ensures p in paths <==> HasPath(out[..i + 1], p) {
          assert out[..i + 1] == out[..i] + [out[i]];
          HasPathGrows(out[..i], out[i], p);
        }
      }
      assert out[..|out|] == out;
      return true;
    }

    /** `assertPreflightTargets`, for the files to write. */
    method Preflight(out: seq<File>) returns (owned: bool)
      ensures owned <==> TargetsOwned(Model(), out)
    {
      var previous := ReadPrevious(manifest);
      for i := 0 to |out|
        invariant forall k :: 0 <= k < i && out[k].path in files ==> Owned(previous, out[k].path)
      {
        if out[i].path in files && !Owned(previous, out[i].path) {
          assert out[i] in out;
          return false;
        }
      }
      return true;
    }

    /** `rebuildOkfProjection`. A refused rebuild changes no file; an accepted one reports what it did. */
    method RebuildProjection(input: Input) returns (r: Result<Report, Error>)
      modifies this
      ensures Model() == Rebuild(digest, old(Model()), input)
      ensures r.Ok? <==> Check(old(Model()), input).None?
      ensures r.Err? ==> Some(r.error) == Check(old(Model()), input) && Model() == old(Model())
      ensures r.Ok? ==>
        && r.value.written == PathsOf(FilesToWrite(old(Model()), input))
        && r.value.deleted == FilesToDelete(old(Model()), input)
        && r.value.status == ReadPrevious(old(manifest)) && !r.value.preservedBecauseCorrupt
    {
      if input.zones == {} {
        return Err(NoVisibleZones);
      }
      var plan := Planned(input);
      var unique := UniquePaths(plan);
      if !unique {
        return Err(PathCollision);
      }
      if !SafeFiles(plan) {
        return Err(UnsafePath);
      }
      var previous := ReadPrevious(manifest);
      var missing := MissingFiles(previous, plan);
      var tombstones := if input.policy.TombstoneMissing? then Tombstones(missing) else [];
      var out := SortBy(plan + tombstones, FileBefore);
      unique := UniquePaths(out);
      if !unique {
        return Err(PathCollision);
      }
      if !SafeFiles(out) {
        return Err(UnsafePath);
      }
      var next := Manifest(input.zones, input.policy, EntriesOf(digest, out));
      var owned := Preflight(out);
      if !owned {
        return Err(NotOwned);
      }
      if previous.Corrupt? {
        return Err(ManifestCorrupt);
      }
      var deleted: seq<string> := [];
      if input.policy.DeleteMissing? {
        DeleteFiles(missing);
        deleted := missing;
      }
      WriteFiles(out);
      manifest := Json(next);
      DoAllInTurn(old(Model()), Removes(deleted), Stores(out), next);
      return Ok(Report(previous, PathsOf(out), deleted, previous.Corrupt?));
    }
  }

  lemma HasPathGrows(files: seq<File>, f: File, path: string)
    ensures HasPath(files + [f], path) <==> HasPath(files, path) || f.path == path
  {
    if HasPath(files, path) {
      var i :| 0 <= i < |files| && files[i].path == path;
      assert (files + [f])[i].path == path;
    }
    assert (files + [f])[|files|] == f;
  }

  lemma {:induction false} DoAllAppends(d: Disk, a: seq<Effect>, b: seq<Effect>)
    ensures DoAll(d, a + b) == DoAll(DoAll(d, a), b)
  {
    if b == [] {
      assert a + b == a;
    } else {
      var n := |b| - 1;
      assert (a + b)[..|a| + n] == a + b[..n];
      DoAllAppends(d, a, b[..n]);
    }
  }

  lemma DoAllInTurn(d: Disk, a: seq<Effect>, b: seq<Effect>, m: Manifest)
    ensures DoAll(d, a + b + [Publish(m)]) == Do(DoAll(DoAll(d, a), b), Publish(m))
  {
    DoAllAppends(d, a, b);
    assert (a + b + [Publish(m)])[..|a + b|] == a + b;
  }
}
