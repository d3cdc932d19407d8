/**
 * A track record as both the player and the playlist store handle it: a Python
 * dictionary from field name to string, with at least "path" and "title" when
 * the store creates it, and possibly "duration" or any field a caller adds.
 */
module Tracks {

  type Track = map<string, string>

  const PathKey: string := "path"
  const TitleKey: string := "title"
  const DurationKey: string := "duration"

  /** The player reads `track["path"]`; a track without that key cannot be played. */
  predicate HasPath(t: Track) {
    PathKey in t
  }
}
