# Snapshot persistence of spotify-exporter, in Dafny

spotify-exporter backs up a user's saved-track library. Each run fetches the full track list
and stores it as a new numbered *generation*. Alongside the collection it writes a metadata
file and, when an earlier generation exists, a diff against that generation. It also caches
the API tokens. This project models the two persistence backends of the program:

- **`src/persistence.rs`** stores everything under an output directory:
  - one sub-directory `snapshot-NNNNNN` per generation, holding `collection.json`,
    `metadata.json` and optionally `diff.json`;
  - a `cache/tokens.json` file for the tokens.
- **`src/database.rs`** keeps the same data in two SQLite tables:
  - `spotify_track_cache`, with one `(generation, track_id)` row per track;
  - `spotify_tokens`, a single-row table of tokens.

Modules:

| file | module | what it holds |
|---|---|---|
| `wrappers.dfy` | `Wrappers` | `Option`; `Outcome` (`Done` or `Panicked`), which models `expect`/`unwrap` aborting the program |
| `spotify.dfy` | `Spotify` | the API structs the persistence layer stores: `Item`, `Track`, `Artist`, the token `Response` |
| `track_diff.dfy` | `TrackDiff` | `Diff::calculate` and a reference definition it is proved equal to |
| `snapshot_naming.dfy` | `SnapshotNaming` | directory names of generations; reading a generation back from a directory entry |
| `persistence.dfy` | `Persistence` | the output directory as a map from names to entries; the `snapshot` run as a function; the `Persistence` class whose methods change the directory step by step |
| `database.dfy` | `Database` | the two tables as sequences of rows in the `Database` class; the `From` conversions |

How things are modelled:

- **The output directory** is a `map<string, Entry>`. An entry is either a plain file or a
  directory whose files are JSON values (`Artifact`).
- **`read_json` and `write_json`** become a lookup and an update of that map. A missing file
  panics, and so does a file holding the wrong kind of value.
- **A panic** is an `Outcome.Panicked` carrying its reason. The directory keeps whatever was
  written before the panic.
- **The `snapshot` run** is specified by the function `SnapshotRun`. The method
  `Persistence.Persistence.Snapshot` is proved to reach exactly the outcome and the directory
  that `SnapshotRun` describes.
- **The generation search** (`LastSnapshot`, and with it `SnapshotRun` and the class's
  `GetLastSnapshot` and `Snapshot`) uses the corrected extraction `Extract`, which parses the six
  digits after `snapshot-`. The as-written counterparts are `LastSnapshotAsWritten` and
  `SnapshotRunAsWritten`; under them `get_last_snapshot` always finds nothing (see Findings).
- **The database tables** are sequences of rows. Each method is tied to a function on those
  sequences.

## Model

| member | source | states |
|---|---|---|
| `TrackDiff.Calculate` | src/persistence.rs:102-139 | `added` is exactly the tracks of the new list whose id occurs nowhere in the old list, and `removed` the tracks of the old list whose id occurs nowhere in the new list (equal to the reference definition `Unmatched`, both directions) |
| `TrackDiff.DiffKeepsOrderAndRepetitions` | src/persistence.rs:125-133 | `added` is a subsequence of the new list and `removed` of the old list; every repetition of an unmatched track is kept and a matched track never appears |
| `TrackDiff.DiffPartitionsIds` | src/persistence.rs:103-123 | ids of `added` = ids(new) − ids(old); ids of `removed` = ids(old) − ids(new); with the shared ids they are pairwise disjoint and cover ids(old) ∪ ids(new) |
| `TrackDiff.SharedIdInNeither` | src/persistence.rs:103-133 | a track whose id occurs in both lists is in neither output, whatever its name and artists |
| `TrackDiff.CalculateSelf` | src/persistence.rs:103-133 | comparing a list with itself gives nothing added and nothing removed |
| `TrackDiff.TwoGenerations` | src/persistence.rs:102-139 | collections {t1, t2} then {t2, t3} give added [t3] and removed [t1] |
| `TrackDiff.UnmatchedIsSubsequence` | src/persistence.rs:125-133 | filtering keeps a subsequence, in the original order |
| `TrackDiff.UnmatchedCounts` | src/persistence.rs:125-133 | a filtered list holds each kept track as many times as the input did, and a removed one zero times |
| `TrackDiff.IdsHasId` | src/persistence.rs:103-106 | the id set built from a list holds exactly the ids some track of the list carries |
| `SnapshotNaming.SnapshotDirNameSpec` | src/persistence.rs:187-189 | the name is "snapshot-" followed by digits that read back as the generation, at least 15 characters long; exactly 15 iff the generation is below 10^6, so larger numbers are not truncated |
| `SnapshotNaming.SnapshotDirNameInjective` | src/persistence.rs:187-189 | different generations get different directory names |
| `SnapshotNaming.DecimalRoundTrip` | src/persistence.rs:188 | the decimal representation is a non-empty digit string whose value is the number |
| `SnapshotNaming.DecimalLength` | src/persistence.rs:188 | a number has at most k decimal digits iff it is below 10^k |
| `SnapshotNaming.LeadingZeros` | src/persistence.rs:188 | zero padding does not change the value of a digit string |
| `SnapshotNaming.FindMatch` | src/persistence.rs:198 | returns the leftmost position where "snapshot-" is followed by six digits, or nothing when no position matches |
| `SnapshotNaming.ParseUsize` | src/persistence.rs:208 | a successful parse starts with a digit or '+' and fits `usize`; a non-empty all-digit string that fits parses to its value |
| `SnapshotNaming.AsWrittenNeverExtracts` | src/persistence.rs:196-216 | the extraction as written parses the whole 15-character match, so every entry gives nothing: the parsed text starts with 's' |
| `SnapshotNaming.Extract` | src/persistence.rs:191-217 | the corrected extraction gives a number iff the entry is a directory whose name has a match; the number is the value of the six digits after `snapshot-` in the leftmost match, below 10^6 |
| `SnapshotNaming.ExtractFindsMatches` | src/persistence.rs:191-198 | an entry yields a number iff it is a directory whose name contains "snapshot-" followed by six digits |
| `SnapshotNaming.ExtractOfDirName` | src/persistence.rs:187-217 | a generation below 10^6 reads back from its own directory name; as written it reads back as nothing |
| `Persistence.CreateDirAll` | src/persistence.rs:152-156 | panics iff a plain file holds the name; an existing directory is left as it is; otherwise an empty directory is added |
| `Persistence.WriteJson` | src/utils.rs:17-36 | panics iff the parent is a plain file; afterwards the file reads back as the written value and the only new entry is the parent directory |
| `Persistence.WriteJsonChangesOnlyItsFile` | src/utils.rs:17-36 | every other file reads the same, and every other entry of the output directory is unchanged |
| `Persistence.CachedTokens` | src/persistence.rs:78-84 | nothing iff no file exists at the cache path; otherwise the tokens that file holds, or a panic when it holds something else |
| `Persistence.LastSnapshot` | src/persistence.rs:63-76 | (corrected extraction) nothing iff no entry yields a generation; otherwise the largest generation found |
| `Persistence.MaxOrNone` | src/persistence.rs:74-75 | the largest element of a set, or nothing iff the set is empty |
| `Persistence.ListedLast` | src/persistence.rs:64-75 | the maximum of a list that holds exactly the elements of a set is the maximum of that set |
| `Persistence.Largest` | src/persistence.rs:72-75 | nothing iff the list is empty; otherwise an element of the list at least as large as every element |
| `Persistence.Persistence.CollectSnapshotNumbers` | src/persistence.rs:64-70 | (corrected extraction) the collected list holds exactly the generations that the directory entries yield |
| `Persistence.Persistence.GetLastSnapshot` | src/persistence.rs:63-76 | (corrected extraction) returns `LastSnapshot` of the output directory |
| `Persistence.Persistence.ReadSnapshot` | src/persistence.rs:58-61 | the collection of that generation; panics when the file is missing or is not a track list |
| `Persistence.Persistence.GetCachedTokens` | src/persistence.rs:78-84 | returns `CachedTokens` of the output directory |
| `Persistence.Persistence.CacheTokens` | src/persistence.rs:86-92 | the output directory becomes the result of writing the tokens to `cache/tokens.json`, or stays as it was on a panic |
| `Persistence.Persistence.CreateSnapshotDir` | src/persistence.rs:152-156 | the output directory becomes `CreateDirAll` of the generation's directory name |
| `Persistence.Persistence.WriteCollectionFile` | src/persistence.rs:158-160 | the output directory becomes the result of writing the tracks to the generation's `collection.json` |
| `Persistence.Persistence.WriteMetadataFile` | src/persistence.rs:162-167 | the output directory becomes the result of writing the metadata to the generation's `metadata.json` |
| `Persistence.Persistence.WriteDiffFile` | src/persistence.rs:169-172 | the output directory becomes the result of writing the diff of the two lists to the generation's `diff.json` |
| `Persistence.Persistence.Snapshot` | src/persistence.rs:39-52 | (corrected extraction) the outcome and the new output directory are exactly those of `SnapshotRun` on the old directory |
| `Persistence.RunFromClosedForm` | src/persistence.rs:39-49 | (corrected extraction) into a new directory, a snapshot writes the collection and the metadata, plus the diff when the previous collection can be read; failing to read that collection is its only panic |
| `Persistence.SnapshotOverFile` | src/persistence.rs:39-42 | (corrected extraction) when a plain file holds the next generation's name, `snapshot` panics and writes nothing |
| `Persistence.SnapshotWritesNextGeneration` | src/persistence.rs:39-49 | (corrected extraction) into a new directory, the collection and the metadata of generation last+1 are always written, and the tracks read back; it panics iff the previous collection cannot be read |
| `Persistence.SnapshotWritesDiff` | src/persistence.rs:39-49 | (corrected extraction) a successful snapshot returns last+1 (1 when there is none); its diff file exists iff a previous generation was found, and then holds the diff from that collection to the new tracks |
| `Persistence.NewDirectoryBecomesLast` | src/persistence.rs:63-76 | (corrected extraction) a directory named for a generation above every one found becomes the last snapshot |
| `Persistence.SnapshotBecomesLast` | src/persistence.rs:39-76 | (corrected extraction) after a successful snapshot, its generation is the last snapshot |
| `Persistence.FirstSnapshot` | src/persistence.rs:290-313 | (corrected extraction) on an empty output directory: generation 1 holding exactly the collection and the metadata, no diff, and `read_snapshot(1)` gives the tracks |
| `Persistence.ConsecutiveSnapshots` | src/persistence.rs:39-49 | (corrected extraction) a second snapshot gets the next generation; its diff is taken against the first snapshot's tracks; it fails only when a plain file already holds that name |
| `Persistence.SnapshotAfterReadable` | src/persistence.rs:39-49 | (corrected extraction) after a readable generation g, a snapshot writes g+1 with the diff from g's collection, failing only over a plain file named for g+1 |
| `Persistence.GenerationsCountUp` | src/persistence.rs:39-44 | (corrected extraction) successive snapshots after generation k get k+1, k+2, … in call order, whenever no plain file holds the name of a generation to be written |
| `Persistence.GenerationsFromEmpty` | src/persistence.rs:39-44 | (corrected extraction) from an empty output directory, the n-th snapshot gets generation n |
| `Persistence.SnapshotTouchesOnlyItsDirectory` | src/persistence.rs:39-49 | (corrected extraction) a snapshot adds or changes no entry other than the directory of the generation it targets |
| `Persistence.SnapshotKeepsTokenCache` | src/persistence.rs:39-92 | (corrected extraction) a snapshot leaves the cached tokens as they were |
| `Persistence.CacheTokensRoundTrip` | src/persistence.rs:78-92 | cached tokens read back; a second write replaces the first; the write panics iff "cache" is a plain file |
| `Persistence.CachingKeepsLastSnapshot` | src/persistence.rs:63-92 | (corrected extraction) caching tokens never changes the last snapshot |
| `Persistence.CacheIsNotASnapshot` | src/persistence.rs:15-16 | the cache directory yields no generation and is never a snapshot directory |
| `Persistence.AsWrittenFindsNoSnapshot` | src/persistence.rs:196-216 | as written, no entry yields a generation, so `get_last_snapshot` returns nothing |
| `Persistence.AsWrittenSecondSnapshotOverwrites` | src/persistence.rs:39-49 | as written, a second snapshot on a fresh directory reports generation 1 again. It overwrites generation 1's collection and writes no diff. Generation 2 never appears. |
| `Database.MaxGeneration` | src/database.rs:33-39 | 0 on an empty table; otherwise a generation of some row that is at least every row's generation |
| `Database.InsertedRows` | src/database.rs:19-27 | one row per track, in order, each with the given generation and that track's id |
| `Database.SnapshotAppendsOneRowPerTrack` | src/database.rs:17-30 | fails iff the track list is empty or the generation would overflow `i32`; otherwise existing rows are kept and one row per track is appended, duplicates included, all with generation last+1 |
| `Database.SnapshotBecomesLastGeneration` | src/database.rs:17-39 | after a successful snapshot, `last_generation` is the previous one plus one |
| `Database.ConsecutiveSnapshots` | src/database.rs:17-39 | the rows of the second of two snapshots carry exactly one generation more than those of the first |
| `Database.InsertedRowsAppend` | src/database.rs:24-27 | binding one more track adds its row at the end |
| `Database.TokensFromResponse` | src/database.rs:83-91 | panics iff `expires_in` exceeds `i32::MAX`; otherwise both tokens and the number carry over unchanged |
| `Database.ResponseFromTokens` | src/database.rs:93-101 | panics iff `expires_in` is negative; otherwise both tokens and the number carry over unchanged |
| `Database.ConversionsRoundTrip` | src/database.rs:83-101 | for in-range values the two conversions are inverse to each other, in both orders |
| `Database.Database.LastGeneration` | src/database.rs:33-39 | returns the maximum generation of the track table, 0 when it is empty |
| `Database.Database.Snapshot` | src/database.rs:17-30 | the track table becomes the table that `SnapshotTable` describes, and is unchanged on a failure; the token table is untouched |
| `Database.Database.CacheTokens` | src/database.rs:43-59 | the token table holds exactly the new row, so a second call leaves only the second tokens; the track table is untouched |
| `Database.Database.GetCachedTokens` | src/database.rs:62-67 | nothing iff the token table is empty; otherwise its first row |

## Left out

- `src/auth_flow.rs`, `src/http.rs`, `src/config.rs`, `src/main.rs` and the HTTP behaviour of
  `src/spotify.rs`: network, browser, threads, environment and CLI wiring. Only the structs of
  `src/spotify.rs` are modelled.
- `output_dir_from_env` (src/persistence.rs:175-185) reads an environment variable. The model
  starts from an output directory it is given.
- Logging (`log::info!`, `log::warn!`) is dropped.
- The export timestamp in `metadata.json` comes from the clock. The model records only that the
  metadata file exists.
- JSON encoding and decoding are not modelled. A file holds the value written to it; a file of
  another kind stands for a value that fails to deserialise.
- Persistence.WriteJson treats every write as a full replacement. The original opens an
  existing file without truncating it (src/utils.rs:27-30). A shorter value written over a
  longer one would leave trailing bytes behind, and a later read of that file would fail to
  parse. Bytes on disk are not modelled, so this failure is not captured.
- Persistence.AsWrittenSecondSnapshotOverwrites states that generation 1's collection reads
  back as the second track list. That holds under the full-replacement `WriteJson` only. With
  the original's non-truncating write, a shorter second list (first `[t]`, second `[]`) leaves
  trailing bytes, and `read_json` of that collection would panic instead.
- Persistence.CacheTokensRoundTrip states that the second cached tokens read back. That holds
  under the full-replacement `WriteJson` only. With the original's non-truncating write, a
  shorter second token JSON leaves trailing bytes, and `get_cached_tokens` would panic instead.
- Only one level of directories is modelled: the output directory's entries and the files
  inside them. Every path the program writes has this shape.
- `read_dir` failing, per-entry errors and `file_type` errors are not modelled. Such an entry
  behaves as a non-directory (`unwrap_or(false)`), and a failing listing would panic.
- The regular expression is modelled as "contains `snapshot-` followed by six ASCII digits".
  The regex crate's `\d` also matches non-ASCII decimal digits; the model does not.
- Persistence.Persistence.CollectSnapshotNumbers visits entries in an unspecified order, as
  `read_dir` does.
- Persistence.Largest replaces the source's sort-then-last with a maximum scan. Both give the
  largest element; the sorted list itself is not kept.
- Persistence.SnapshotWritesNextGeneration, `SnapshotWritesDiff`, `SnapshotBecomesLast`,
  `ConsecutiveSnapshots` and `GenerationsCountUp` require generations below 10^6. From 10^6 on,
  a directory name has seven or more digits. The unanchored pattern then finds its first six
  digits, which is a different number. The model computes that number (`Extract`), but these
  properties are not claimed for it.
- Persistence.Persistence.Snapshot returns the generation it targeted, or the panic. The
  original returns nothing. The extra result only exposes what the run did.
- usize is taken to be 64 bits wide (`USIZE_MAX`).
- Database connection, pooling, `async` and transaction mechanics are not modelled.
  `Database.Database.CacheTokens` is one atomic step, as its transaction makes it. The
  constructor starts from given table contents; the original connects to `sqlite:data.db`.
- Database.MaxGeneration: the original decodes `MAX(generation)`, which is SQL NULL on an empty
  table, through `fetch_optional(..).unwrap_or(0)`. The model states the intent: 0 on an empty
  table. How sqlx decodes NULL here is library behaviour and is not modelled.
- Database.SnapshotAppendsOneRowPerTrack: `push_values` with no tracks produces an INSERT
  without a VALUES list, which the database rejects. The model treats it as a failed statement
  (`QueryFailed`). The overflow of `last_generation() + 1` at `i32::MAX` is modelled as a panic,
  as in a debug build. A release build would wrap around instead.
- Database.Database.Snapshot collects the track ids in one loop and binds them in a second.
  No SQL text is generated.

Behaviour of the code worth knowing:

- A previous generation whose collection cannot be read makes `snapshot` panic after the new
  collection and metadata are written. The snapshot is not completed without a diff.
  `Persistence.SnapshotWritesNextGeneration` states this.
- `read_snapshot` of a missing generation panics. It does not return a "not found" value.
- As the code stands, every snapshot targets generation 1 again; see Findings.
  `Persistence.GenerationsFromEmpty` states that numbering for the corrected extraction.

## Findings

| source | as written | input that shows it | evidently intended | confidence | as-written member | corrected member |
|---|---|---|---|---|---|---|
| src/persistence.rs:198-208 | The pattern `snapshot-\d{6}` has no capture group, so `captures[0]` is the whole match, and the whole match is parsed as `usize`. That parse always fails, so every directory entry yields no generation. `get_last_snapshot` always returns nothing, and every `snapshot` targets generation 1, overwriting it. | a directory named `snapshot-000001`: the text parsed is `"snapshot-000001"`, which is not a number. A second `snapshot` on a fresh output directory rewrites `snapshot-000001` and writes no diff; when its JSON is shorter than the first, the non-truncating write leaves generation 1's collection unreadable. | parse the six digits after `snapshot-`, so that `snapshot-000001` yields 1 and generations count 1, 2, 3, … | not executed | `Persistence.AsWrittenSecondSnapshotOverwrites` | `Persistence.GenerationsFromEmpty` |
