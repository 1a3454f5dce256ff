/** The SQLite-backed persistence layer (`src/database.rs`): the track cache table, where every
    snapshot appends one row per track stamped with its generation, and the single-row token
    table. Each table is a sequence of rows; a statement that fails aborts the program. */
module Database {
  import opened Wrappers
  import opened Spotify

  const I32_MAX: int := 0x7FFF_FFFF

  /** Rust's `i32`, the type of the `generation` and `expires_in` columns. */
  type i32 = x: int | -0x8000_0000 <= x <= 0x7FFF_FFFF

  /** A row of `spotify_tokens`. */
  datatype Tokens = Tokens(accessToken: string, refreshToken: string, expiresIn: i32)

  /** A row of `spotify_track_cache`. */
  datatype TrackRow = TrackRow(generation: i32, trackId: string)

  /** `SELECT MAX(generation)`, with 0 standing for an empty table (`unwrap_or(0)`). */
  function MaxGeneration(rows: seq<TrackRow>): (m: i32)
    ensures rows == [] ==> m == 0
    ensures forall i :: 0 <= i < |rows| ==> rows[i].generation <= m
    ensures rows != [] ==> exists i :: 0 <= i < |rows| && rows[i].generation == m
  {
    if rows == [] then 0
    else if |rows| == 1 then rows[0].generation
    else
      var rest := MaxGeneration(rows[1..]);
      assert forall i :: 1 <= i < |rows| ==> rows[i] == rows[1..][i - 1];
      if rows[0].generation < rest then rest else rows[0].generation
  }

  /** The rows `push_values` binds for a snapshot: one per track, in order, each carrying the
      generation and the track's id. */
  function InsertedRows(generation: i32, tracks: seq<Item>): (rows: seq<TrackRow>)
    ensures |rows| == |tracks|
    ensures forall i :: 0 <= i < |tracks| ==> rows[i] == TrackRow(generation, tracks[i].Id())
  {
    if tracks == [] then []
    else [TrackRow(generation, tracks[0].Id())] + InsertedRows(generation, tracks[1..])
  }

  /** `snapshot` on the track cache: the next generation is the last plus one, which must fit an
      `i32`; an INSERT with no rows is an SQL error; otherwise the new rows are appended. */
  function SnapshotTable(rows: seq<TrackRow>, tracks: seq<Item>): Outcome<seq<TrackRow>> {
    var next := MaxGeneration(rows) + 1;
    if next > I32_MAX then Panicked(ArithmeticOverflow)
    else if tracks == [] then Panicked(QueryFailed)
    else Done(rows + InsertedRows(next, tracks))
  }

  /** `snapshot` fails exactly on an empty track list or when the generation would overflow;
      otherwise it keeps every existing row and appends exactly one row per track, in order,
      each with that track's id (duplicates included) and the generation last+1. */
  lemma SnapshotAppendsOneRowPerTrack(rows: seq<TrackRow>, tracks: seq<Item>)
    ensures var r := SnapshotTable(rows, tracks);
      && (r.Panicked? <==> tracks == [] || MaxGeneration(rows) == I32_MAX)
      && (r.Done? ==> |r.value| == |rows| + |tracks| && r.value[..|rows|] == rows)
      && (r.Done? ==> forall i :: 0 <= i < |tracks| ==>
            r.value[|rows| + i] == TrackRow(MaxGeneration(rows) + 1, tracks[i].Id()))
  {
    var r := SnapshotTable(rows, tracks);
    if r.Done? {
      var added := InsertedRows(MaxGeneration(rows) + 1, tracks);
      assert r.value == rows + added;
      assert r.value[..|rows|] == rows;
      assert forall i :: 0 <= i < |tracks| ==> r.value[|rows| + i] == added[i];
    }
  }

  /** After a successful snapshot, `last_generation` is the generation it wrote. */
  lemma SnapshotBecomesLastGeneration(rows: seq<TrackRow>, tracks: seq<Item>)
    requires SnapshotTable(rows, tracks).Done?
    ensures MaxGeneration(SnapshotTable(rows, tracks).value) == MaxGeneration(rows) + 1
  {
    var g := MaxGeneration(rows) + 1;
    var all := SnapshotTable(rows, tracks).value;
    var added := InsertedRows(g, tracks);
    assert all == rows + added;
    forall i | 0 <= i < |all| ensures all[i].generation <= g {
      if i >= |rows| {
        assert all[i] == added[i - |rows|];
      }
    }
    assert all[|rows|] == added[0];
    var m := MaxGeneration(all);
    assert g <= m;
  }

  /** Two successful snapshots in a row: the second one's rows carry exactly one generation more
      than the first one's. */
  lemma ConsecutiveSnapshots(rows: seq<TrackRow>, first: seq<Item>, second: seq<Item>)
    requires SnapshotTable(rows, first).Done?
    requires SnapshotTable(SnapshotTable(rows, first).value, second).Done?
    ensures var middle := SnapshotTable(rows, first).value;
      var last := SnapshotTable(middle, second).value;
      && (forall i :: |rows| <= i < |middle| ==> middle[i].generation == MaxGeneration(rows) + 1)
      && (forall i :: |middle| <= i < |last| ==> last[i].generation == MaxGeneration(rows) + 2)
  {
    var middle := SnapshotTable(rows, first).value;
    SnapshotAppendsOneRowPerTrack(rows, first);
    SnapshotBecomesLastGeneration(rows, first);
    SnapshotAppendsOneRowPerTrack(middle, second);
    forall i | |rows| <= i < |middle| ensures middle[i].generation == MaxGeneration(rows) + 1 {
      assert middle[|rows| + (i - |rows|)] == middle[i];
    }
    var last := SnapshotTable(middle, second).value;
    forall i | |middle| <= i < |last| ensures last[i].generation == MaxGeneration(rows) + 2 {
      assert last[|middle| + (i - |middle|)] == last[i];
    }
  }

  /** `From<Response> for Tokens`: `expires_in.try_into().unwrap()` panics on a value above
      `i32::MAX`; otherwise both tokens and the number carry over unchanged. */
  function TokensFromResponse(response: TokenResponse): (t: Outcome<Tokens>)
    ensures t.Panicked? <==> response.expiresIn > I32_MAX
    ensures t.Done? ==> t.value == Tokens(response.accessToken, response.refreshToken, response.expiresIn)
  {
    if response.expiresIn > I32_MAX then Panicked(ConversionFailed)
    else Done(Tokens(response.accessToken, response.refreshToken, response.expiresIn))
  }

  /** `From<Tokens> for Response`: `expires_in.try_into().unwrap()` panics on a negative value;
      otherwise both tokens and the number carry over unchanged. */
  function ResponseFromTokens(tokens: Tokens): (r: Outcome<TokenResponse>)
    ensures r.Panicked? <==> tokens.expiresIn < 0
    ensures r.Done? ==> r.value == TokenResponse(tokens.accessToken, tokens.refreshToken, tokens.expiresIn)
  {
    if tokens.expiresIn < 0 then Panicked(ConversionFailed)
    else Done(TokenResponse(tokens.accessToken, tokens.refreshToken, tokens.expiresIn))
  }

  /** For in-range values the two conversions are inverse to each other, in both orders. */
  lemma ConversionsRoundTrip(response: TokenResponse, tokens: Tokens)
    ensures response.expiresIn <= I32_MAX ==>
      ResponseFromTokens(TokensFromResponse(response).value) == Done(response)
    ensures tokens.expiresIn >= 0 ==>
      TokensFromResponse(ResponseFromTokens(tokens).value) == Done(tokens)
  {
    if response.expiresIn <= I32_MAX {
      var t := TokensFromResponse(response).value;
      assert ResponseFromTokens(t).value == response;
    }
    if tokens.expiresIn >= 0 {
      var r := ResponseFromTokens(tokens).value;
      assert TokensFromResponse(r).value == tokens;
    }
  }

  /** `Database`: the two tables of the connected database. */
  class Database {
    var trackCache: seq<TrackRow>
    var tokenRows: seq<Tokens>

    /** `Database::new`: connect to a database holding these tables. */
    constructor (tracks: seq<TrackRow>, tokens: seq<Tokens>)
      ensures trackCache == tracks && tokenRows == tokens
    {
      trackCache := tracks;
      tokenRows := tokens;
    }

    /** `last_generation`. */
    method LastGeneration() returns (generation: i32)
      ensures generation == MaxGeneration(trackCache)
    {
      generation := MaxGeneration(trackCache);
    }

    /** `snapshot`: compute the next generation, bind one row per track, and execute the INSERT;
        the token table is not touched. */
    method Snapshot(tracks: seq<Item>) returns (status: Outcome<()>)
      modifies this
      ensures var r := SnapshotTable(old(trackCache), tracks);
        && (r.Done? ==> status == Done(()) && trackCache == r.value)
        && (r.Panicked? ==> status == Panicked(r.reason) && trackCache == old(trackCache))
      ensures tokenRows == old(tokenRows)
    {
      var last := LastGeneration();
      if last + 1 > I32_MAX {
        return Panicked(ArithmeticOverflow);
      }
      var generation: i32 := last + 1;
      var trackIds := [];
      for i := 0 to |tracks|
        invariant |trackIds| == i
        invariant forall k :: 0 <= k < i ==> trackIds[k] == tracks[k].Id()
        invariant trackCache == old(trackCache) && tokenRows == old(tokenRows)
      {
        trackIds := trackIds + [tracks[i].Id()];
      }
      var values := [];
      for i := 0 to |trackIds|
        invariant values == InsertedRows(generation, tracks[..i])
        invariant trackCache == old(trackCache) && tokenRows == old(tokenRows)
      {
        assert tracks[..i + 1] == tracks[..i] + [tracks[i]];
        InsertedRowsAppend(generation, tracks[..i], tracks[i]);
        values := values + [TrackRow(generation, trackIds[i])];
      }
      assert tracks[..|tracks|] == tracks;
      if values == [] {
        return Panicked(QueryFailed);
      }
      trackCache := trackCache + values;
      status := Done(());
    }

    /** `cache_tokens`: in one transaction, delete every token row and insert `tokens`; the
        track cache is not touched. */
    method CacheTokens(tokens: Tokens)
      modifies this
      ensures tokenRows == [tokens]
      ensures trackCache == old(trackCache)
    {
      tokenRows := [];
      tokenRows := tokenRows + [tokens];
    }

    /** `get_cached_tokens`: `SELECT * ... LIMIT 1`, nothing on an empty table. */
    method GetCachedTokens() returns (tokens: Option<Tokens>)
      ensures tokens.None? <==> tokenRows == []
      ensures tokens.Some? ==> tokens.value == tokenRows[0]
    {
      if |tokenRows| == 0 {
        return None;
      }
      tokens := Some(tokenRows[0]);
    }
  }

  /** Binding one more track adds its row at the end. */
  lemma InsertedRowsAppend(generation: i32, tracks: seq<Item>, track: Item)
    ensures InsertedRows(generation, tracks + [track]) == InsertedRows(generation, tracks) + [TrackRow(generation, track.Id())]
  {
    var all := InsertedRows(generation, tracks + [track]);
    assert forall i :: 0 <= i < |tracks| ==> (tracks + [track])[i] == tracks[i];
  }
}
