/** The values exchanged with the streaming service's web API (the structs of `src/spotify.rs`). */
module Spotify {

  /** Rust's `u32`. */
  type u32 = x: int | 0 <= x <= 0xFFFF_FFFF

  /** Response from the token endpoint. */
  datatype TokenResponse = TokenResponse(accessToken: string, refreshToken: string, expiresIn: u32)

  /** An artist that contributed to a track. */
  datatype Artist = Artist(name: string)

  /** A track; `id` is its stable identity, the other fields are payload. */
  datatype Track = Track(artists: seq<Artist>, id: string, name: string)

  /** One item of the saved-tracks listing; this is what the persistence layer calls a track. */
  datatype Item = Item(track: Track) {
    function Id(): string { track.id }
  }
}
