/** The directory-backed persistence layer (`src/persistence.rs`): snapshots of the track collection
    in generation-numbered directories, a diff against the previous generation, and a token cache.
    The output directory is a map from entry names to entries; JSON files are the values they hold. */
module Persistence {
  import opened Wrappers
  import opened Spotify
  import opened TrackDiff
  import opened SnapshotNaming

  const CACHE_DIR: string := "cache"
  const CACHE_TOKEN_FILE: string := "tokens.json"
  const SNAPSHOT_COLLECTION_FILE: string := "collection.json"
  const SNAPSHOT_DIFF_FILE: string := "diff.json"
  const SNAPSHOT_METADATA_FILE: string := "metadata.json"

  /** What a JSON file holds. The export timestamp of the metadata is not modelled: only whether
      the metadata file exists matters. */
  datatype Artifact =
    | CollectionFile(tracks: seq<Item>)
    | MetadataFile
    | DiffFile(diff: Diff)
    | TokenFile(tokens: TokenResponse)
    | ForeignFile  // anything else; it deserialises neither as a track list nor as tokens

  /** An entry of the output directory: a file, or a directory of files. */
  datatype Entry = File(content: Artifact) | Directory(files: map<string, Artifact>)

  type Tree = map<string, Entry>

  /** A path relative to the output directory: a sub-directory and a file inside it. */
  datatype FilePath = FilePath(dir: string, file: string)

  /** `get_token_cache_path`. */
  function TokenCachePath(): FilePath {
    FilePath(CACHE_DIR, CACHE_TOKEN_FILE)
  }

  /** A file of the snapshot directory of `generation` (`snapshot_path(..).join(..)`). */
  function SnapshotFilePath(generation: nat, file: string): FilePath {
    FilePath(SnapshotDirName(generation), file)
  }

  predicate IsDirectory(tree: Tree, name: string) {
    name in tree && tree[name].Directory?
  }

  /** The file at `path`, when `path.exists()`. */
  function ReadFile(tree: Tree, path: FilePath): Option<Artifact> {
    if IsDirectory(tree, path.dir) && path.file in tree[path.dir].files
    then Some(tree[path.dir].files[path.file])
    else None
  }

  /** `fs::create_dir_all` for a directory directly inside the output directory: an existing
      directory is kept with its files; an existing file of that name is an error. */
  function CreateDirAll(tree: Tree, name: string): (r: Outcome<Tree>)
    ensures r.Panicked? <==> name in tree && tree[name].File?
    ensures r.Done? && name in tree ==> r.value == tree
    ensures r.Done? && name !in tree ==> r.value == tree[name := Directory(map[])]
  {
    if name !in tree then Done(tree[name := Directory(map[])])
    else if tree[name].Directory? then Done(tree)
    else Panicked(CreateDirFailed)
  }

  /** `write_json`: a file that does not exist yet gets its parent directory created first; the
      file then holds `content` and nothing else changes. */
  function WriteJson(tree: Tree, path: FilePath, content: Artifact): (r: Outcome<Tree>)
    ensures r.Panicked? <==> path.dir in tree && tree[path.dir].File?
    ensures r.Done? ==> ReadFile(r.value, path) == Some(content)
    ensures r.Done? ==> r.value.Keys == tree.Keys + {path.dir}
  {
    // When the file exists its directory does too, and `create_dir_all` would leave it alone.
    match CreateDirAll(tree, path.dir)
    case Panicked(p) => Panicked(p)
    case Done(t) => Done(t[path.dir := Directory(t[path.dir].files[path.file := content])])
  }

  /** `write_json` changes no other file, and no other entry of the output directory. */
  lemma WriteJsonChangesOnlyItsFile(tree: Tree, path: FilePath, content: Artifact)
    ensures var r := WriteJson(tree, path, content);
      && (r.Done? ==> forall p :: p != path ==> ReadFile(r.value, p) == ReadFile(tree, p))
      && (r.Done? ==> forall k :: k in tree && k != path.dir ==> r.value[k] == tree[k])
  {
  }

  /** `read_json::<Vec<Track>>`: a missing file or one that is not a track list panics. */
  function ReadCollection(tree: Tree, path: FilePath): Outcome<seq<Item>> {
    match ReadFile(tree, path)
    case None => Panicked(ReadFileFailed)
    case Some(CollectionFile(tracks)) => Done(tracks)
    case Some(_) => Panicked(DeserializeFailed)
  }

  /** `read_snapshot`. */
  function CollectionAt(tree: Tree, generation: nat): Outcome<seq<Item>> {
    ReadCollection(tree, SnapshotFilePath(generation, SNAPSHOT_COLLECTION_FILE))
  }

  /** `get_cached_tokens`: nothing when the cache file does not exist, its tokens when it holds
      tokens, a panic when it holds anything else. */
  function CachedTokens(tree: Tree): (r: Outcome<Option<TokenResponse>>)
    ensures r == Done(None) <==> ReadFile(tree, TokenCachePath()).None?
    ensures r.Done? && r.value.Some? ==> ReadFile(tree, TokenCachePath()) == Some(TokenFile(r.value.value))
    ensures r.Panicked? ==> ReadFile(tree, TokenCachePath()).Some? && !ReadFile(tree, TokenCachePath()).value.TokenFile?
  {
    match ReadFile(tree, TokenCachePath())
    case None => Done(None)
    case Some(TokenFile(tokens)) => Done(Some(tokens))
    case Some(_) => Panicked(DeserializeFailed)
  }

  /** The entry `name` as `read_dir` reports it. */
  function Listed(tree: Tree, name: string): DirEntry
    requires name in tree
  {
    DirEntry(name, tree[name].Directory?)
  }

  /** The names of the sub-directories of the output directory. */
  function DirectoryNames(tree: Tree): set<string> {
    set name | name in tree && tree[name].Directory?
  }

  /** The generation numbers carried by a set of directory names. */
  function NumbersOf(dirs: set<string>): set<nat> {
    set name | name in dirs && Extract(DirEntry(name, true)).Some? :: Extract(DirEntry(name, true)).value
  }

  /** The generation numbers that `get_last_snapshot` collects from the output directory; a plain
      file yields none (`extract_snapshot_dir_number` returns `None` for it). */
  function SnapshotNumbers(tree: Tree): set<nat> {
    NumbersOf(DirectoryNames(tree))
  }

  /** The same, with the extraction as written. */
  function SnapshotNumbersAsWritten(tree: Tree): set<nat> {
    set name | name in tree && ExtractAsWritten(Listed(tree, name)).Some? :: ExtractAsWritten(Listed(tree, name)).value
  }

  /** The largest element of a non-empty set. */
  ghost function MaxOf(s: set<nat>): (m: nat)
    requires s != {}
    ensures m in s && forall x :: x in s ==> x <= m
  {
    var x :| x in s;
    if s == {x} then x
    else
      var rest := MaxOf(s - {x});
      assert forall y :: y in s ==> y == x || y in s - {x};
      if x < rest then rest else x
  }

  /** `get_last_snapshot`: the largest generation number found, or none. */
  ghost function LastSnapshot(tree: Tree): (r: Option<nat>)
    ensures r.None? <==> SnapshotNumbers(tree) == {}
    ensures r.Some? ==> r.value in SnapshotNumbers(tree)
    ensures r.Some? ==> forall x :: x in SnapshotNumbers(tree) ==> x <= r.value
  {
    MaxOrNone(SnapshotNumbers(tree))
  }

  /** The largest element of a set, or nothing when it is empty. */
  ghost function MaxOrNone(s: set<nat>): (r: Option<nat>)
    ensures r.None? <==> s == {}
    ensures r.Some? ==> r.value in s && forall x :: x in s ==> x <= r.value
  {
    if s == {} then None else Some(MaxOf(s))
  }

  /** `get_last_snapshot` with the extraction as written. */
  ghost function LastSnapshotAsWritten(tree: Tree): Option<nat> {
    MaxOrNone(SnapshotNumbersAsWritten(tree))
  }

  /** `snapshot` with the extraction as written. */
  ghost function SnapshotRunAsWritten(tree: Tree, tracks: seq<Item>): Run {
    RunFrom(tree, LastSnapshotAsWritten(tree), tracks)
  }

  /** What a run of `snapshot` returns and leaves behind. */
  datatype Run = Run(outcome: Outcome<nat>, tree: Tree)

  /** `snapshot`: find the last generation, create the directory of the next one, write the
      collection, then the metadata, then, when there was a previous generation, the diff against
      its collection. A panic leaves whatever was written before it. */
  ghost function SnapshotRun(tree: Tree, tracks: seq<Item>): Run {
    RunFrom(tree, LastSnapshot(tree), tracks)
  }

  /** `snapshot` once the last generation has been found. */
  function RunFrom(tree: Tree, last: Option<nat>, tracks: seq<Item>): Run {
    var next := last.GetOr(0) + 1;
    match CreateDirAll(tree, SnapshotDirName(next))
    case Panicked(p) => Run(Panicked(p), tree)
    case Done(created) => WriteFilesRun(created, last, next, tracks)
  }

  /** The part of `snapshot` after the directory exists: collection first, then metadata. */
  function WriteFilesRun(tree: Tree, last: Option<nat>, next: nat, tracks: seq<Item>): Run {
    match WriteJson(tree, SnapshotFilePath(next, SNAPSHOT_COLLECTION_FILE), CollectionFile(tracks))
    case Panicked(p) => Run(Panicked(p), tree)
    case Done(withCollection) =>
      (match WriteJson(withCollection, SnapshotFilePath(next, SNAPSHOT_METADATA_FILE), MetadataFile)
       case Panicked(p) => Run(Panicked(p), withCollection)
       case Done(withMetadata) =>
         if last.None? then Run(Done(next), withMetadata)
         else DiffRun(withMetadata, last.value, next, tracks))
  }

  /** The last part of `snapshot`: read the previous collection and write the diff against it. */
  function DiffRun(tree: Tree, last: nat, next: nat, tracks: seq<Item>): Run {
    match CollectionAt(tree, last)
    case Panicked(p) => Run(Panicked(p), tree)
    case Done(oldTracks) =>
      (match WriteJson(tree, SnapshotFilePath(next, SNAPSHOT_DIFF_FILE), DiffFile(Calculate(oldTracks, tracks)))
       case Panicked(p) => Run(Panicked(p), tree)
       case Done(withDiff) => Run(Done(next), withDiff))
  }

  /** The files of a new snapshot directory: the collection and the metadata, and the diff when
      there is one. */
  function SnapshotFiles(tracks: seq<Item>, diff: Option<Diff>): map<string, Artifact> {
    var base := map[SNAPSHOT_COLLECTION_FILE := CollectionFile(tracks), SNAPSHOT_METADATA_FILE := MetadataFile];
    if diff.Some? then base[SNAPSHOT_DIFF_FILE := DiffFile(diff.value)] else base
  }

  /** A list holding exactly the elements of a set: its largest element, or nothing when it is
      empty, is the largest element of the set. */
  lemma ListedLast(found: set<nat>, snapshots: seq<nat>, last: Option<nat>)
    requires forall x :: x in snapshots <==> x in found
    requires last.None? ==> snapshots == []
    requires last.Some? ==> last.value in snapshots && forall k :: 0 <= k < |snapshots| ==> snapshots[k] <= last.value
    ensures last == MaxOrNone(found)
  {
    if last.None? {
      assert forall x :: x !in found;
    } else {
      var r := MaxOrNone(found).value;
      assert r in snapshots;
    }
  }

  /** The tree after a step that either completed or panicked. */
  function After(tree: Tree, step: Outcome<Tree>): Tree {
    if step.Done? then step.value else tree
  }

  /** What the caller of a step sees. */
  function Status(step: Outcome<Tree>): Outcome<()> {
    if step.Done? then Done(()) else Panicked(step.reason)
  }

  /** Adding a directory name adds that directory's number, if it has one. */
  lemma NumbersOfAdd(dirs: set<string>, name: string)
    ensures NumbersOf(dirs + {name})
         == NumbersOf(dirs) + (if Extract(DirEntry(name, true)).Some? then {Extract(DirEntry(name, true)).value} else {})
  {
    var added := if Extract(DirEntry(name, true)).Some? then {Extract(DirEntry(name, true)).value} else {};
    forall x | x in NumbersOf(dirs + {name}) ensures x in NumbersOf(dirs) + added {
      var other :| other in dirs + {name} && Extract(DirEntry(other, true)).Some? && Extract(DirEntry(other, true)).value == x;
      if other != name {
        assert x in NumbersOf(dirs);
      }
    }
  }

  /** Directory names after one name becomes a directory (or stays one). */
  lemma DirectoryNamesAfterCreate(tree: Tree, name: string, files: map<string, Artifact>)
    ensures DirectoryNames(tree[name := Directory(files)]) == DirectoryNames(tree) + {name}
  {
  }

  /** The directory of the next generation does not exist yet as a directory: it would have
      carried that generation's number, which is above the largest one found. */
  lemma NextDirectoryIsFresh(tree: Tree)
    requires LastSnapshot(tree).GetOr(0) + 1 < Pow10(NUMBER_WIDTH)
    ensures !IsDirectory(tree, SnapshotDirName(LastSnapshot(tree).GetOr(0) + 1))
  {
    var next := LastSnapshot(tree).GetOr(0) + 1;
    ExtractOfDirName(next);
    assert SnapshotDirName(next) in DirectoryNames(tree) ==> next in SnapshotNumbers(tree);
  }

  /** The cache directory never counts as a snapshot, and no snapshot directory is the cache. */
  lemma CacheIsNotASnapshot(n: nat)
    ensures Extract(DirEntry(CACHE_DIR, true)) == None
    ensures SnapshotDirName(n) != CACHE_DIR
  {
    SnapshotDirNameSpec(n);
  }

  /** The previous generation's directory is not the one being written. */
  lemma PreviousIsElsewhere(last: nat)
    ensures SnapshotDirName(last) != SnapshotDirName(last + 1)
  {
    if SnapshotDirName(last) == SnapshotDirName(last + 1) {
      SnapshotDirNameInjective(last, last + 1);
    }
  }

  /** Writing the files of a snapshot into its freshly created, empty directory. */
  lemma WriteFilesRunClosedForm(t0: Tree, last: Option<nat>, tracks: seq<Item>)
    requires IsDirectory(t0, SnapshotDirName(last.GetOr(0) + 1))
    requires t0[SnapshotDirName(last.GetOr(0) + 1)].files == map[]
    ensures var next := last.GetOr(0) + 1;
      var run := WriteFilesRun(t0, last, next, tracks);
      var failed := last.Some? && CollectionAt(t0, last.value).Panicked?;
      && run.outcome == (if failed then Panicked(CollectionAt(t0, last.value).reason) else Done(next))
      && run.tree == t0[SnapshotDirName(next) := Directory(SnapshotFiles(tracks,
           if !failed && last.Some? then Some(Calculate(CollectionAt(t0, last.value).value, tracks)) else None))]
  {
    var next := last.GetOr(0) + 1;
    var dir := SnapshotDirName(next);
    var t1 := t0[dir := Directory(map[SNAPSHOT_COLLECTION_FILE := CollectionFile(tracks)])];
    assert WriteJson(t0, SnapshotFilePath(next, SNAPSHOT_COLLECTION_FILE), CollectionFile(tracks)) == Done(t1);
    var t2 := t0[dir := Directory(SnapshotFiles(tracks, None))];
    assert CreateDirAll(t1, dir) == Done(t1);
    assert t1[dir].files[SNAPSHOT_METADATA_FILE := MetadataFile] == SnapshotFiles(tracks, None);
    assert t1[dir := Directory(SnapshotFiles(tracks, None))] == t2;
    assert WriteJson(t1, SnapshotFilePath(next, SNAPSHOT_METADATA_FILE), MetadataFile) == Done(t2);
    if last.Some? {
      PreviousIsElsewhere(last.value);
      assert CollectionAt(t2, last.value) == CollectionAt(t0, last.value);
      if CollectionAt(t0, last.value).Done? {
        var diff := Calculate(CollectionAt(t0, last.value).value, tracks);
        assert CreateDirAll(t2, dir) == Done(t2);
        assert t2[dir].files[SNAPSHOT_DIFF_FILE := DiffFile(diff)] == SnapshotFiles(tracks, Some(diff));
        assert t2[dir := Directory(SnapshotFiles(tracks, Some(diff)))] == t0[dir := Directory(SnapshotFiles(tracks, Some(diff)))];
        assert WriteJson(t2, SnapshotFilePath(next, SNAPSHOT_DIFF_FILE), DiffFile(diff))
            == Done(t0[dir := Directory(SnapshotFiles(tracks, Some(diff)))]);
      }
    }
  }

  /** A run of `snapshot` whose target directory does not exist yet: the new directory holds the
      collection, the metadata and, when the previous collection could be read, the diff against
      it; failing to read that collection is the only panic. */
  lemma RunFromClosedForm(tree: Tree, last: Option<nat>, tracks: seq<Item>)
    requires SnapshotDirName(last.GetOr(0) + 1) !in tree
    ensures var next := last.GetOr(0) + 1;
      var run := RunFrom(tree, last, tracks);
      var failed := last.Some? && CollectionAt(tree, last.value).Panicked?;
      && run.outcome == (if failed then Panicked(CollectionAt(tree, last.value).reason) else Done(next))
      && run.tree == tree[SnapshotDirName(next) := Directory(SnapshotFiles(tracks,
           if !failed && last.Some? then Some(Calculate(CollectionAt(tree, last.value).value, tracks)) else None))]
  {
    var next := last.GetOr(0) + 1;
    var dir := SnapshotDirName(next);
    var t0 := tree[dir := Directory(map[])];
    RunFromCreatesDirectory(tree, last, tracks);
    WriteFilesRunClosedForm(t0, last, tracks);
    forall files: map<string, Artifact> ensures t0[dir := Directory(files)] == tree[dir := Directory(files)] {
    }
  }

  /** The first step of a snapshot into a new directory creates it empty; the previous
      generation's collection reads the same afterwards. */
  lemma RunFromCreatesDirectory(tree: Tree, last: Option<nat>, tracks: seq<Item>)
    requires SnapshotDirName(last.GetOr(0) + 1) !in tree
    ensures var next := last.GetOr(0) + 1;
      var t0 := tree[SnapshotDirName(next) := Directory(map[])];
      && RunFrom(tree, last, tracks) == WriteFilesRun(t0, last, next, tracks)
      && (last.Some? ==> CollectionAt(t0, last.value) == CollectionAt(tree, last.value))
  {
    var next := last.GetOr(0) + 1;
    var t0 := tree[SnapshotDirName(next) := Directory(map[])];
    assert CreateDirAll(tree, SnapshotDirName(next)) == Done(t0);
    if last.Some? {
      PreviousIsElsewhere(last.value);
    }
  }

  /** The diff a snapshot writes when the previous collection, if any, can be read. */
  function NewDiff(tree: Tree, last: Option<nat>, tracks: seq<Item>): Option<Diff>
    requires last.Some? ==> CollectionAt(tree, last.value).Done?
  {
    if last.Some? then Some(Calculate(CollectionAt(tree, last.value).value, tracks)) else None
  }

  /** A snapshot into a new directory, after a previous generation that can be read, succeeds. */
  lemma RunFromSucceeds(tree: Tree, last: Option<nat>, tracks: seq<Item>)
    requires SnapshotDirName(last.GetOr(0) + 1) !in tree
    requires last.Some? ==> CollectionAt(tree, last.value).Done?
    ensures RunFrom(tree, last, tracks)
         == Run(Done(last.GetOr(0) + 1),
                tree[SnapshotDirName(last.GetOr(0) + 1) := Directory(SnapshotFiles(tracks, NewDiff(tree, last, tracks)))])
  {
    RunFromClosedForm(tree, last, tracks);
  }

  /** A snapshot into a new directory, after a previous generation whose collection cannot be
      read, panics after writing the collection and the metadata. */
  lemma RunFromFails(tree: Tree, last: Option<nat>, tracks: seq<Item>)
    requires SnapshotDirName(last.GetOr(0) + 1) !in tree
    requires last.Some? && CollectionAt(tree, last.value).Panicked?
    ensures RunFrom(tree, last, tracks)
         == Run(Panicked(CollectionAt(tree, last.value).reason),
                tree[SnapshotDirName(last.GetOr(0) + 1) := Directory(SnapshotFiles(tracks, None))])
  {
    RunFromClosedForm(tree, last, tracks);
  }

  /** `snapshot` targets generation max+1 (1 when none is found); when a plain file already holds
      that name, it panics with nothing written. */
  lemma SnapshotOverFile(tree: Tree, tracks: seq<Item>)
    requires LastSnapshot(tree).GetOr(0) + 1 < Pow10(NUMBER_WIDTH)
    requires SnapshotDirName(LastSnapshot(tree).GetOr(0) + 1) in tree
    ensures SnapshotRun(tree, tracks) == Run(Panicked(CreateDirFailed), tree)
  {
    NextDirectoryIsFresh(tree);
  }

  /** `snapshot` into a new directory, for a generation max+1 that fits six digits: the collection
      and the metadata are written even when the previous collection then cannot be read, which is
      the only way it panics; reading the generation back gives the tracks. */
  lemma SnapshotWritesNextGeneration(tree: Tree, tracks: seq<Item>)
    requires LastSnapshot(tree).GetOr(0) + 1 < Pow10(NUMBER_WIDTH)
    requires SnapshotDirName(LastSnapshot(tree).GetOr(0) + 1) !in tree
    ensures var last := LastSnapshot(tree);
      var g := last.GetOr(0) + 1;
      var run := SnapshotRun(tree, tracks);
      && (run.outcome.Panicked? <==> last.Some? && CollectionAt(tree, last.value).Panicked?)
      && CollectionAt(run.tree, g) == Done(tracks)
      && ReadFile(run.tree, SnapshotFilePath(g, SNAPSHOT_METADATA_FILE)) == Some(MetadataFile)
  {
    var last := LastSnapshot(tree);
    var g := last.GetOr(0) + 1;
    var run := SnapshotRun(tree, tracks);
    var files;
    if last.Some? && CollectionAt(tree, last.value).Panicked? {
      RunFromFails(tree, last, tracks);
      files := SnapshotFiles(tracks, None);
      assert run.outcome.Panicked?;
    } else {
      RunFromSucceeds(tree, last, tracks);
      files := SnapshotFiles(tracks, NewDiff(tree, last, tracks));
      assert run.outcome.Done?;
    }
    assert run.tree == tree[SnapshotDirName(g) := Directory(files)];
    assert files[SNAPSHOT_COLLECTION_FILE] == CollectionFile(tracks);
    assert files[SNAPSHOT_METADATA_FILE] == MetadataFile;
  }

  /** A successful `snapshot` returns generation max+1 (1 when none is found), and its diff file
      exists exactly when there was a previous generation, holding the diff from that
      generation's collection to the new tracks. */
  lemma SnapshotWritesDiff(tree: Tree, tracks: seq<Item>)
    requires LastSnapshot(tree).GetOr(0) + 1 < Pow10(NUMBER_WIDTH)
    requires SnapshotRun(tree, tracks).outcome.Done?
    ensures var last := LastSnapshot(tree);
      var g := last.GetOr(0) + 1;
      var run := SnapshotRun(tree, tracks);
      && run.outcome.value == g
      && (last.Some? ==> CollectionAt(tree, last.value).Done?)
      && ReadFile(run.tree, SnapshotFilePath(g, SNAPSHOT_DIFF_FILE))
         == if last.None? then None else Some(DiffFile(Calculate(CollectionAt(tree, last.value).value, tracks)))
  {
    var last := LastSnapshot(tree);
    var g := last.GetOr(0) + 1;
    NextDirectoryIsFresh(tree);
    assert SnapshotDirName(g) !in tree;
    assert last.Some? ==> CollectionAt(tree, last.value).Done? by {
      if last.Some? && CollectionAt(tree, last.value).Panicked? {
        RunFromFails(tree, last, tracks);
      }
    }
    RunFromSucceeds(tree, last, tracks);
  }

  /** A set of generations with a larger one added has that one as its largest. */
  lemma AddedAboveIsMax(found: set<nat>, g: nat)
    requires forall x :: x in found ==> x < g
    ensures MaxOrNone(found + {g}) == Some(g)
  {
    var m := MaxOrNone(found + {g}).value;
    assert g <= m;
  }

  /** A directory carrying a generation above every one found becomes the last snapshot. */
  lemma NewDirectoryBecomesLast(tree: Tree, g: nat, files: map<string, Artifact>)
    requires LastSnapshot(tree).GetOr(0) < g < Pow10(NUMBER_WIDTH)
    ensures LastSnapshot(tree[SnapshotDirName(g) := Directory(files)]) == Some(g)
  {
    var dir := SnapshotDirName(g);
    var after := tree[dir := Directory(files)];
    DirectoryNamesAfterCreate(tree, dir, files);
    NumbersOfAdd(DirectoryNames(tree), dir);
    ExtractOfDirName(g);
    assert SnapshotNumbers(after) == SnapshotNumbers(tree) + {g};
    AddedAboveIsMax(SnapshotNumbers(tree), g);
  }

  /** After a successful snapshot whose generation fits six digits, that generation is the last. */
  lemma SnapshotBecomesLast(tree: Tree, tracks: seq<Item>)
    requires LastSnapshot(tree).GetOr(0) + 1 < Pow10(NUMBER_WIDTH)
    requires SnapshotRun(tree, tracks).outcome.Done?
    ensures LastSnapshot(SnapshotRun(tree, tracks).tree) == Some(LastSnapshot(tree).GetOr(0) + 1)
  {
    var last := LastSnapshot(tree);
    var g := last.GetOr(0) + 1;
    SnapshotWritesDiff(tree, tracks);
    NextDirectoryIsFresh(tree);
    RunFromSucceeds(tree, last, tracks);
    NewDirectoryBecomesLast(tree, g, SnapshotFiles(tracks, NewDiff(tree, last, tracks)));
  }

  /** On an empty output directory, `snapshot` creates generation 1 with the collection and the
      metadata and no diff; reading generation 1 back gives the tracks. */
  lemma FirstSnapshot(tracks: seq<Item>)
    ensures var run := SnapshotRun(map[], tracks);
      && run.outcome == Done(1)
      && run.tree == map[SnapshotDirName(1) := Directory(map[
           SNAPSHOT_COLLECTION_FILE := CollectionFile(tracks),
           SNAPSHOT_METADATA_FILE := MetadataFile])]
      && CollectionAt(run.tree, 1) == Done(tracks)
  {
    NothingInEmpty();
    RunFromSucceeds(map[], None, tracks);
  }

  /** Two snapshots in a row get consecutive generations, and the second one's diff is taken
      against the first one's tracks. */
  lemma ConsecutiveSnapshots(tree: Tree, first: seq<Item>, second: seq<Item>)
    requires LastSnapshot(tree).GetOr(0) + 2 < Pow10(NUMBER_WIDTH)
    requires SnapshotRun(tree, first).outcome.Done?
    ensures var g := SnapshotRun(tree, first).outcome.value;
      var dir := SnapshotDirName(g + 1);
      var run := SnapshotRun(SnapshotRun(tree, first).tree, second);
      && (run.outcome.Panicked? <==> dir in tree)
      && (run.outcome.Done? ==> run.outcome.value == g + 1)
      && (run.outcome.Done? ==>
           ReadFile(run.tree, SnapshotFilePath(g + 1, SNAPSHOT_DIFF_FILE)) == Some(DiffFile(Calculate(first, second))))
  {
    var g := LastSnapshot(tree).GetOr(0) + 1;
    var middle := SnapshotRun(tree, first).tree;
    AfterFirstSnapshot(tree, first);
    assert SnapshotRun(tree, first).outcome.value == g;
    var run := SnapshotRun(middle, second);
    SnapshotAfterReadable(middle, g, first, second);
    assert run.outcome.Panicked? <==> SnapshotDirName(g + 1) in tree;
  }

  /** What the second of two snapshots finds after the first one succeeded. */
  lemma AfterFirstSnapshot(tree: Tree, first: seq<Item>)
    requires LastSnapshot(tree).GetOr(0) + 2 < Pow10(NUMBER_WIDTH)
    requires SnapshotRun(tree, first).outcome.Done?
    ensures var g := LastSnapshot(tree).GetOr(0) + 1;
      var middle := SnapshotRun(tree, first).tree;
      && SnapshotRun(tree, first).outcome.value == g
      && LastSnapshot(middle) == Some(g)
      && CollectionAt(middle, g) == Done(first)
      && (SnapshotDirName(g + 1) in middle <==> SnapshotDirName(g + 1) in tree)
  {
    var g := LastSnapshot(tree).GetOr(0) + 1;
    if SnapshotDirName(g) in tree {
      SnapshotOverFile(tree, first);
    }
    SnapshotWritesNextGeneration(tree, first);
    SnapshotWritesDiff(tree, first);
    SnapshotBecomesLast(tree, first);
    PreviousIsElsewhere(g);
    SnapshotTouchesOnlyItsDirectory(tree, first);
  }

  /** `snapshot` after a generation `g` whose collection `previous` can be read: it fails only
      over a plain file named for g+1, and otherwise writes generation g+1 with the diff from
      `previous` to the new tracks. */
  lemma SnapshotAfterReadable(tree: Tree, g: nat, previous: seq<Item>, tracks: seq<Item>)
    requires LastSnapshot(tree) == Some(g) && g + 1 < Pow10(NUMBER_WIDTH)
    requires CollectionAt(tree, g) == Done(previous)
    ensures var run := SnapshotRun(tree, tracks);
      && (run.outcome.Panicked? <==> SnapshotDirName(g + 1) in tree)
      && (run.outcome.Done? ==> run.outcome.value == g + 1)
      && (run.outcome.Done? ==>
           ReadFile(run.tree, SnapshotFilePath(g + 1, SNAPSHOT_DIFF_FILE)) == Some(DiffFile(Calculate(previous, tracks))))
  {
    if SnapshotDirName(g + 1) in tree {
      SnapshotOverFile(tree, tracks);
    } else {
      SnapshotWritesNextGeneration(tree, tracks);
      if SnapshotRun(tree, tracks).outcome.Done? {
        SnapshotWritesDiff(tree, tracks);
      }
    }
  }

  /** A sequence of snapshots taken one after the other. */
  ghost function RunAll(tree: Tree, batches: seq<seq<Item>>): (seq<Outcome<nat>>, Tree)
    decreases |batches|
  {
    if batches == [] then ([], tree)
    else
      var run := SnapshotRun(tree, batches[0]);
      var rest := RunAll(run.tree, batches[1..]);
      ([run.outcome] + rest.0, rest.1)
  }

  /** The outcomes of a sequence of snapshots: the first one's, then the rest's. */
  lemma RunAllFirst(tree: Tree, batches: seq<seq<Item>>)
    requires batches != []
    ensures var run := SnapshotRun(tree, batches[0]);
      RunAll(tree, batches).0 == [run.outcome] + RunAll(run.tree, batches[1..]).0
  {
  }

  /** No plain file holds the name `name` (`create_dir_all` would fail on it). */
  predicate NoFileNamed(tree: Tree, name: string) {
    name !in tree || tree[name].Directory?
  }

  /** No plain file holds the directory name of any of the generations k+1, ..., k+n. */
  predicate FreeAhead(tree: Tree, k: nat, n: nat) {
    forall j: nat {:trigger NoFileNamed(tree, SnapshotDirName(j))} :: k < j <= k + n ==> NoFileNamed(tree, SnapshotDirName(j))
  }

  /** One snapshot on an output directory where no plain file holds the next generation's name
      and whose last generation, if any, is readable: it succeeds with a new directory holding the
      collection, the metadata and, after a previous generation, the diff. */
  lemma SnapshotStepRun(tree: Tree, tracks: seq<Item>)
    requires NoFileNamed(tree, SnapshotDirName(LastSnapshot(tree).GetOr(0) + 1))
    requires LastSnapshot(tree).Some? ==> CollectionAt(tree, LastSnapshot(tree).value).Done?
    requires LastSnapshot(tree).GetOr(0) + 1 < Pow10(NUMBER_WIDTH)
    ensures var last := LastSnapshot(tree);
      SnapshotRun(tree, tracks)
      == Run(Done(last.GetOr(0) + 1),
             tree[SnapshotDirName(last.GetOr(0) + 1) := Directory(SnapshotFiles(tracks, NewDiff(tree, last, tracks)))])
  {
    NextDirectoryIsFresh(tree);
    RunFromSucceeds(tree, LastSnapshot(tree), tracks);
  }

  /** Adding a directory holding a collection, for a generation above every one found: it
      becomes the last, readable generation, and no name held by no plain file gets one. */
  lemma NewSnapshotDirectory(tree: Tree, g: nat, n: nat, files: map<string, Artifact>)
    requires FreeAhead(tree, g, n)
    requires LastSnapshot(tree).GetOr(0) < g < Pow10(NUMBER_WIDTH)
    requires SNAPSHOT_COLLECTION_FILE in files && files[SNAPSHOT_COLLECTION_FILE].CollectionFile?
    ensures var after := tree[SnapshotDirName(g) := Directory(files)];
      && FreeAhead(after, g, n)
      && LastSnapshot(after) == Some(g)
      && CollectionAt(after, g).Done?
  {
    var after := tree[SnapshotDirName(g) := Directory(files)];
    forall j: nat | g < j <= g + n ensures NoFileNamed(after, SnapshotDirName(j)) {
      assert NoFileNamed(tree, SnapshotDirName(j));
    }
    NewDirectoryBecomesLast(tree, g, files);
  }

  /** The first of n+1 names free of plain files, and the n after it. */
  lemma FreeAheadStep(tree: Tree, k: nat, n: nat)
    requires FreeAhead(tree, k, n + 1)
    ensures NoFileNamed(tree, SnapshotDirName(k + 1)) && FreeAhead(tree, k + 1, n)
  {
  }

  /** One snapshot after a readable generation `k` (0: none), with the names of k+1, ..., k+n+1
      free of plain files: it succeeds with generation k+1, which becomes the last, readable
      generation, and the names of k+2, ..., k+n+1 stay free. */
  lemma CountStep(tree: Tree, k: nat, n: nat, tracks: seq<Item>)
    requires FreeAhead(tree, k, n + 1)
    requires LastSnapshot(tree).GetOr(0) == k
    requires LastSnapshot(tree).Some? ==> CollectionAt(tree, k).Done?
    requires k + n + 1 < Pow10(NUMBER_WIDTH)
    ensures var run := SnapshotRun(tree, tracks);
      && run.outcome == Done(k + 1)
      && FreeAhead(run.tree, k + 1, n)
      && LastSnapshot(run.tree) == Some(k + 1)
      && CollectionAt(run.tree, k + 1).Done?
  {
    var files := SnapshotFiles(tracks, NewDiff(tree, LastSnapshot(tree), tracks));
    var after := tree[SnapshotDirName(k + 1) := Directory(files)];
    FreeAheadStep(tree, k, n);
    SnapshotStepRun(tree, tracks);
    assert SnapshotRun(tree, tracks) == Run(Done(k + 1), after);
    NewSnapshotDirectory(tree, k + 1, n, files);
  }

  /** Starting from an output directory whose last generation `k` (0: none) is readable and where
      no plain file holds the name of any generation to be written, successive snapshots get
      generations k+1, k+2, ... in call order. */
  lemma {:induction false} GenerationsCountUp(tree: Tree, k: nat, batches: seq<seq<Item>>)
    requires FreeAhead(tree, k, |batches|)
    requires LastSnapshot(tree).GetOr(0) == k
    requires LastSnapshot(tree).Some? ==> CollectionAt(tree, k).Done?
    requires k + |batches| < Pow10(NUMBER_WIDTH)
    ensures RunAll(tree, batches).0 == Counting(k, |batches|)
    decreases |batches|, 1
  {
    if batches != [] {
      var n := |batches| - 1;
      FirstThenRest(tree, k, batches);
      RunAllFirst(tree, batches);
      assert Counting(k, n + 1) == [Done(k + 1)] + Counting(k + 1, n);
    }
  }

  /** The first of the snapshots gets generation k+1, and the rest count up from there. */
  lemma {:induction false} FirstThenRest(tree: Tree, k: nat, batches: seq<seq<Item>>)
    requires batches != []
    requires FreeAhead(tree, k, |batches|)
    requires LastSnapshot(tree).GetOr(0) == k
    requires LastSnapshot(tree).Some? ==> CollectionAt(tree, k).Done?
    requires k + |batches| < Pow10(NUMBER_WIDTH)
    ensures var run := SnapshotRun(tree, batches[0]);
      && run.outcome == Done(k + 1)
      && RunAll(run.tree, batches[1..]).0 == Counting(k + 1, |batches| - 1)
    decreases |batches|, 0
  {
    var run := SnapshotRun(tree, batches[0]);
    var rest := batches[1..];
    var n := |rest|;
    assert n + 1 == |batches|;
    CountStep(tree, k, n, batches[0]);
    GenerationsCountUp(run.tree, k + 1, rest);
  }

  /** The successful outcomes of `n` snapshots after generation `from`: from+1, from+2, ... */
  function Counting(from: nat, n: nat): (r: seq<Outcome<nat>>)
    ensures |r| == n
    ensures forall i :: 0 <= i < n ==> r[i] == Done(from + i + 1)
    decreases n
  {
    if n == 0 then [] else [Done(from + 1)] + Counting(from + 1, n - 1)
  }

  /** From an empty output directory, the n-th snapshot gets generation n. */
  lemma GenerationsFromEmpty(batches: seq<seq<Item>>)
    requires |batches| < Pow10(NUMBER_WIDTH)
    ensures |RunAll(map[], batches).0| == |batches|
    ensures forall i :: 0 <= i < |batches| ==> RunAll(map[], batches).0[i] == Done(i + 1)
  {
    NothingInEmpty();
    GenerationsCountUp(map[], 0, batches);
  }

  /** An empty output directory has no snapshot. */
  lemma NothingInEmpty()
    ensures LastSnapshot(map[]) == None
  {
    var empty: Tree := map[];
    assert SnapshotNumbers(empty) == {};
  }

  /** `snapshot` changes nothing outside the directory of the generation it targets, whatever
      the state of that directory. */
  lemma SnapshotTouchesOnlyItsDirectory(tree: Tree, tracks: seq<Item>)
    ensures var dir := SnapshotDirName(LastSnapshot(tree).GetOr(0) + 1);
      var after := SnapshotRun(tree, tracks).tree;
      && after.Keys <= tree.Keys + {dir}
      && forall k :: k in tree && k != dir ==> after[k] == tree[k]
  {
    var last := LastSnapshot(tree);
    var next := last.GetOr(0) + 1;
    var created := CreateDirAll(tree, SnapshotDirName(next));
    if created.Done? {
      WriteFilesRunFrame(created.value, last, next, tracks);
    }
  }

  lemma WriteFilesRunFrame(t0: Tree, last: Option<nat>, next: nat, tracks: seq<Item>)
    ensures var after := WriteFilesRun(t0, last, next, tracks).tree;
      && after.Keys <= t0.Keys + {SnapshotDirName(next)}
      && forall k :: k in t0 && k != SnapshotDirName(next) ==> after[k] == t0[k]
  {
    var w1 := WriteJson(t0, SnapshotFilePath(next, SNAPSHOT_COLLECTION_FILE), CollectionFile(tracks));
    if w1.Done? {
      var w2 := WriteJson(w1.value, SnapshotFilePath(next, SNAPSHOT_METADATA_FILE), MetadataFile);
      if w2.Done? && last.Some? && CollectionAt(w2.value, last.value).Done? {
        var diff := Calculate(CollectionAt(w2.value, last.value).value, tracks);
        var w3 := WriteJson(w2.value, SnapshotFilePath(next, SNAPSHOT_DIFF_FILE), DiffFile(diff));
      }
    }
  }

  /** Taking a snapshot leaves the token cache as it was. */
  lemma SnapshotKeepsTokenCache(tree: Tree, tracks: seq<Item>)
    ensures CachedTokens(SnapshotRun(tree, tracks).tree) == CachedTokens(tree)
  {
    var next := LastSnapshot(tree).GetOr(0) + 1;
    var after := SnapshotRun(tree, tracks).tree;
    SnapshotTouchesOnlyItsDirectory(tree, tracks);
    CacheIsNotASnapshot(next);
    CacheEntryDecides(tree, after);
  }

  /** The token cache is read from the "cache" entry alone. */
  lemma CacheEntryDecides(before: Tree, after: Tree)
    requires CACHE_DIR in after ==> CACHE_DIR in before
    requires CACHE_DIR in before ==> CACHE_DIR in after && after[CACHE_DIR] == before[CACHE_DIR]
    ensures CachedTokens(after) == CachedTokens(before)
  {
    assert ReadFile(after, TokenCachePath()) == ReadFile(before, TokenCachePath());
  }

  /** Caching tokens and reading them back gives those tokens, and a second write replaces the
      first; the write fails only when "cache" is a plain file. */
  lemma CacheTokensRoundTrip(tree: Tree, tokens: TokenResponse, later: TokenResponse)
    ensures var w := WriteJson(tree, TokenCachePath(), TokenFile(tokens));
      && (w.Panicked? <==> CACHE_DIR in tree && tree[CACHE_DIR].File?)
      && (w.Done? ==> CachedTokens(w.value) == Done(Some(tokens)))
      && (w.Done? ==> CachedTokens(After(w.value, WriteJson(w.value, TokenCachePath(), TokenFile(later)))) == Done(Some(later)))
  {
  }

  /** Caching tokens never changes the last snapshot. */
  lemma CachingKeepsLastSnapshot(tree: Tree, tokens: TokenResponse)
    ensures var w := WriteJson(tree, TokenCachePath(), TokenFile(tokens));
      w.Done? ==> LastSnapshot(w.value) == LastSnapshot(tree)
  {
    var w := WriteJson(tree, TokenCachePath(), TokenFile(tokens));
    if w.Done? {
      CacheIsNotASnapshot(0);
      assert w.value == tree[CACHE_DIR := w.value[CACHE_DIR]] && w.value[CACHE_DIR].Directory?;
      DirectoryNamesAfterCreate(tree, CACHE_DIR, w.value[CACHE_DIR].files);
      NumbersOfAdd(DirectoryNames(tree), CACHE_DIR);
      assert SnapshotNumbers(w.value) == SnapshotNumbers(tree);
    }
  }

  /** As written, no directory entry yields a number, so `get_last_snapshot` finds nothing and
      `snapshot` always targets generation 1. */
  lemma AsWrittenFindsNoSnapshot(tree: Tree)
    ensures SnapshotNumbersAsWritten(tree) == {}
    ensures LastSnapshotAsWritten(tree) == None
  {
    forall x | x in SnapshotNumbersAsWritten(tree) ensures false {
      var name :| name in tree && ExtractAsWritten(Listed(tree, name)).Some? && ExtractAsWritten(Listed(tree, name)).value == x;
      AsWrittenNeverExtracts(Listed(tree, name));
    }
  }

  /** As written, a second snapshot on a fresh output directory rewrites generation 1 in place:
      generation 1 then holds only the second collection and the metadata, no diff is written,
      and generation 2 never appears. */
  lemma AsWrittenSecondSnapshotOverwrites(first: seq<Item>, second: seq<Item>)
    ensures var once := SnapshotRunAsWritten(map[], first);
      var twice := SnapshotRunAsWritten(once.tree, second);
      && once.outcome == Done(1) && twice.outcome == Done(1)
      && twice.tree == map[SnapshotDirName(1) := Directory(SnapshotFiles(second, None))]
      && CollectionAt(twice.tree, 1) == Done(second)
      && ReadFile(twice.tree, SnapshotFilePath(1, SNAPSHOT_DIFF_FILE)) == None
  {
    var empty: Tree := map[];
    var dir := SnapshotDirName(1);
    AsWrittenFindsNoSnapshot(empty);
    RunFromSucceeds(empty, None, first);
    var t1 := map[dir := Directory(SnapshotFiles(first, None))];
    assert SnapshotRunAsWritten(empty, first) == Run(Done(1), t1);
    AsWrittenFindsNoSnapshot(t1);
    assert CreateDirAll(t1, dir) == Done(t1);
    var t2 := map[dir := Directory(SnapshotFiles(second, None))];
    assert SNAPSHOT_COLLECTION_FILE != SNAPSHOT_METADATA_FILE;
    assert SnapshotFiles(first, None)[SNAPSHOT_COLLECTION_FILE := CollectionFile(second)] == SnapshotFiles(second, None);
    assert t1[dir := Directory(SnapshotFiles(second, None))] == t2;
    assert WriteJson(t1, SnapshotFilePath(1, SNAPSHOT_COLLECTION_FILE), CollectionFile(second)) == Done(t2);
    assert CreateDirAll(t2, dir) == Done(t2);
    assert SnapshotFiles(second, None)[SNAPSHOT_METADATA_FILE := MetadataFile] == SnapshotFiles(second, None);
    assert t2[dir := Directory(SnapshotFiles(second, None))] == t2;
    assert WriteJson(t2, SnapshotFilePath(1, SNAPSHOT_METADATA_FILE), MetadataFile) == Done(t2);
  }

  /** `snapshots.sort(); snapshots.last()`: the largest number of the list, or nothing when the
      list is empty. */
  method Largest(snapshots: seq<nat>) returns (last: Option<nat>)
    ensures last.None? <==> snapshots == []
    ensures last.Some? ==> last.value in snapshots
    ensures last.Some? ==> forall k :: 0 <= k < |snapshots| ==> snapshots[k] <= last.value
  {
    if |snapshots| == 0 {
      return None;
    }
    var max := snapshots[0];
    var i := 1;
    while i < |snapshots|
      invariant 1 <= i <= |snapshots|
      invariant max in snapshots
      invariant forall k :: 0 <= k < i ==> snapshots[k] <= max
    {
      if snapshots[i] > max {
        max := snapshots[i];
      }
      i := i + 1;
    }
    last := Some(max);
  }

  /** `Persistence`: its output directory, with the operations on it. The `Snapshot` struct, which
      only holds the path of one snapshot directory, is represented by the generation number its
      methods take. */
  class Persistence {
    var outputDir: Tree

    constructor (contents: Tree)
      ensures outputDir == contents
    {
      outputDir := contents;
    }

    /** The `filter_map` over the directory listing: the number of every entry that has one, in
        the order the listing gives (unspecified). */
    method CollectSnapshotNumbers() returns (snapshots: seq<nat>)
      ensures forall x :: x in snapshots <==> x in SnapshotNumbers(outputDir)
    {
      var pending := outputDir.Keys;
      snapshots := [];
      while pending != {}
        invariant pending <= outputDir.Keys
        invariant forall x :: x in snapshots ==> x in SnapshotNumbers(outputDir)
        invariant forall name :: name in DirectoryNames(outputDir) && name !in pending && Extract(DirEntry(name, true)).Some?
                    ==> Extract(DirEntry(name, true)).value in snapshots
        decreases pending
      {
        var name :| name in pending;
        var number := Extract(DirEntry(name, outputDir[name].Directory?));
        if number.Some? {
          assert name in DirectoryNames(outputDir);
          snapshots := snapshots + [number.value];
        }
        pending := pending - {name};
      }
    }

    /** `get_last_snapshot`: collect the numbers, then take the largest (the source sorts them and
        takes the last). */
    method GetLastSnapshot() returns (last: Option<nat>)
      ensures last == LastSnapshot(outputDir)
    {
      var snapshots := CollectSnapshotNumbers();
      last := Largest(snapshots);
      ListedLast(SnapshotNumbers(outputDir), snapshots, last);
    }

    /** `read_snapshot`. */
    method ReadSnapshot(generation: nat) returns (tracks: Outcome<seq<Item>>)
      ensures tracks == CollectionAt(outputDir, generation)
    {
      var path := SnapshotFilePath(generation, SNAPSHOT_COLLECTION_FILE);
      var file := ReadFile(outputDir, path);
      if file.None? {
        return Panicked(ReadFileFailed);
      }
      if !file.value.CollectionFile? {
        return Panicked(DeserializeFailed);
      }
      tracks := Done(file.value.tracks);
    }

    /** `get_cached_tokens`. */
    method GetCachedTokens() returns (tokens: Outcome<Option<TokenResponse>>)
      ensures tokens == CachedTokens(outputDir)
    {
      var file := ReadFile(outputDir, TokenCachePath());
      if file.None? {
        return Done(None);
      }
      if !file.value.TokenFile? {
        return Panicked(DeserializeFailed);
      }
      tokens := Done(Some(file.value.tokens));
    }

    /** `cache_tokens`: write the tokens to the fixed cache path. */
    method CacheTokens(tokens: TokenResponse) returns (status: Outcome<()>)
      modifies this
      ensures var step := WriteJson(old(outputDir), TokenCachePath(), TokenFile(tokens));
        status == Status(step) && outputDir == After(old(outputDir), step)
    {
      var step := WriteJson(outputDir, TokenCachePath(), TokenFile(tokens));
      status := Status(step);
      outputDir := After(outputDir, step);
    }

    /** `Snapshot::new`: create the directory of `generation`. */
    method CreateSnapshotDir(generation: nat) returns (status: Outcome<()>)
      modifies this
      ensures var step := CreateDirAll(old(outputDir), SnapshotDirName(generation));
        status == Status(step) && outputDir == After(old(outputDir), step)
    {
      var step := CreateDirAll(outputDir, SnapshotDirName(generation));
      status := Status(step);
      outputDir := After(outputDir, step);
    }

    /** `Snapshot::write_collection_file`. */
    method WriteCollectionFile(generation: nat, tracks: seq<Item>) returns (status: Outcome<()>)
      modifies this
      ensures var step := WriteJson(old(outputDir), SnapshotFilePath(generation, SNAPSHOT_COLLECTION_FILE), CollectionFile(tracks));
        status == Status(step) && outputDir == After(old(outputDir), step)
    {
      var step := WriteJson(outputDir, SnapshotFilePath(generation, SNAPSHOT_COLLECTION_FILE), CollectionFile(tracks));
      status := Status(step);
      outputDir := After(outputDir, step);
    }

    /** `Snapshot::write_metadata_file`. */
    method WriteMetadataFile(generation: nat) returns (status: Outcome<()>)
      modifies this
      ensures var step := WriteJson(old(outputDir), SnapshotFilePath(generation, SNAPSHOT_METADATA_FILE), MetadataFile);
        status == Status(step) && outputDir == After(old(outputDir), step)
    {
      var step := WriteJson(outputDir, SnapshotFilePath(generation, SNAPSHOT_METADATA_FILE), MetadataFile);
      status := Status(step);
      outputDir := After(outputDir, step);
    }

    /** `Snapshot::write_diff_file`. */
    method WriteDiffFile(generation: nat, oldTracks: seq<Item>, newTracks: seq<Item>) returns (status: Outcome<()>)
      modifies this
      ensures var step := WriteJson(old(outputDir), SnapshotFilePath(generation, SNAPSHOT_DIFF_FILE), DiffFile(Calculate(oldTracks, newTracks)));
        status == Status(step) && outputDir == After(old(outputDir), step)
    {
      var diff := Calculate(oldTracks, newTracks);
      var step := WriteJson(outputDir, SnapshotFilePath(generation, SNAPSHOT_DIFF_FILE), DiffFile(diff));
      status := Status(step);
      outputDir := After(outputDir, step);
    }

    /** `snapshot`. */
    method Snapshot(tracks: seq<Item>) returns (generation: Outcome<nat>)
      modifies this
      ensures Run(generation, outputDir) == SnapshotRun(old(outputDir), tracks)
    {
      var last := GetLastSnapshot();
      var next := last.GetOr(0) + 1;
      var status := CreateSnapshotDir(next);
      if status.Panicked? {
        return Panicked(status.reason);
      }
      assert SnapshotRun(old(outputDir), tracks) == WriteFilesRun(outputDir, last, next, tracks);
      // Once the directory exists, writing a file into it cannot fail.
      status := WriteCollectionFile(next, tracks);
      assert status == Done(());
      status := WriteMetadataFile(next);
      assert status == Done(());
      if last.Some? {
        var oldTracks := ReadSnapshot(last.value);
        if oldTracks.Panicked? {
          return Panicked(oldTracks.reason);
        }
        status := WriteDiffFile(next, oldTracks.value, tracks);
        assert status == Done(());
      }
      generation := Done(next);
    }
  }
}
