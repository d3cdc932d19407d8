# MP3 player playlist core, modelled in Dafny

This project models the parts of the MP3 player that keep state: the playback
queue, the playlist store and the console playlist.

- `player.dfy` (module `Playback`): the `Player` class. It holds a queue of
  track records and the selected position in it (-1 when nothing is
  selected). It also holds the paused flag and the file last loaded. Every
  call the player makes into the audio library is recorded in the ghost field
  `mixer`. The index arithmetic of the queue operations is also given as
  functions (`NextIndex`, `PrevIndex`, `ClampIndex`). Lemmas show how repeated
  steps walk through the queue.
- `playlist_store.dfy` (module `Playlists`): the playlist store.
  - It maps each playlist name to an ordered list of track records.
  - Each operation is first a function on the map, and lemmas relate these
    functions to one another (delete undoes create, rename round-trips,
    remove undoes add, update is idempotent).
  - The `PlaylistStore` class then makes the same changes in place and is
    proved to agree with the functions.
  - Every disk write is recorded in the ghost field `written`. The class
    keeps the write-through invariant: the last write equals the current map.
- `song_list.dfy` (module `SongList`): the console playlist.
  - It is a singly linked list of `Node`s. The first node (the header) holds
    the playlist name; the later nodes hold the songs.
  - The nodes of a list are given as a ghost sequence `nodes` with
    `Chain(nodes)`: each node links to the next, and the last one links to
    null. `Songs(nodes)` is what the list holds.
  - Appending, deleting, counting, searching and the in-place bubble sort
    work on the real links. The sort is proved to produce a sorted
    permutation.
  - The recently-played stack is the class `RecentlyPlayed`. Its invariant
    is that no song sits directly above the same song.
- `text.dfy` (module `Text`): the Python string operations the store relies
  on.
  - `str.strip` on whitespace.
  - `str` ordering, proved to be a strict total order.
  - `sorted` on a set of keys.
  - `Path.stem` for POSIX paths.
- `tracks.dfy` and `wrappers.dfy`: the track record type (a string-to-string
  map) and the `Option`, `Result` and `Outcome` datatypes.

## Model

| member | source | states |
|---|---|---|
| Playback.Clamp01 | player.py:53-55 | the volume passed on is in [0, 1]: unchanged inside, 0 below, 1 above |
| Playback.ClampIndex | player.py:86 | the position is a valid index: `index` itself when valid, 0 below, the last index above |
| Playback.NextIndex | player.py:90-100 | on an empty queue nothing changes; otherwise one further, or -1 once past the last track; positions stay in [-1, n) |
| Playback.PrevIndex | player.py:102-107 | on an empty queue nothing changes; otherwise one back but never below 0, so -1 and 0 both go to 0 |
| Playback.AdvanceStepsThrough | player.py:90-100 | k steps of `next_in_queue` from a valid position move exactly k tracks further while tracks remain |
| Playback.AdvanceSplit | player.py:90-100 | j + k steps of `next_in_queue` are j steps followed by k steps |
| Playback.AdvancePastEnd | player.py:90-100 | stepping past the last track always ends at -1 (nothing selected) |
| Playback.AdvanceCycles | player.py:90-100 | from -1 the next step selects the first track, and n + 1 steps come back to -1 |
| Playback.PrevUndoesNext | player.py:90-107 | stepping back undoes a step forward that stayed inside the queue |
| Playback.Player.constructor | player.py:17-24 | nothing loaded, empty queue, position -1, not paused; the mixer is initialised and set to volume 0.7 |
| Playback.Player.Load | player.py:27-30 | the file is remembered and loaded by the library; queue, position and paused flag are unchanged |
| Playback.Player.Play | player.py:32-37 | without a loaded file nothing changes; otherwise playback starts at `startPos`, `paused` is cleared, and `IsPlaying` holds as soon as the library reports busy |
| Playback.Player.Pause | player.py:39-46 | `paused` flips, the library is told to pause or unpause accordingly, and `IsPlaying` (for a busy library) flips with it |
| Playback.Player.Stop | player.py:48-51 | the library stops and `paused` is cleared, so `IsPlaying` is whatever the library reports; queue, position and file are unchanged |
| Playback.Player.SetVolume | player.py:53-55 | the library receives the volume clamped into [0, 1]; nothing else changes |
| Playback.Player.PlayFileNow | player.py:63-68 | the queue is emptied and the position is -1, so `QueueLen` is 0 and `CurrentTrack` is none; the file is loaded and played; `paused` is cleared |
| Playback.Player.LoadQueue | player.py:70-73 | the queue becomes the given tracks with position -1, so `QueueLen` is their number and `CurrentTrack` is none; file, paused flag and library calls are unchanged |
| Playback.Player.PlayCurrentFromQueue | player.py:119-123 | the selected track's path is loaded and played; `CurrentTrack` is that track and `IsPlaying` holds once the library is busy |
| Playback.Player.PlayQueueFromStart | player.py:75-80 | no-op on an empty queue; otherwise position 0, `CurrentTrack` is the first track, and its path is loaded and played |
| Playback.Player.PlayIndex | player.py:82-88 | no-op on an empty queue; otherwise the position is `ClampIndex(index, n)`, `CurrentTrack` is the track there, and it is loaded and played |
| Playback.Player.NextInQueue | player.py:90-100 | the position becomes `NextIndex`; `CurrentTrack` is none exactly when that is -1, and otherwise is the next track, which is played; running past the end stops playback, clears `paused` and selects -1 |
| Playback.Player.PrevInQueue | player.py:102-107 | the position becomes `PrevIndex`, `CurrentTrack` is the track there, and it is loaded and played; no-op on an empty queue |
| Playback.Player.CurrentTrack | player.py:109-113 | a track exactly when the position is a valid index, and then the track at that position; the queue operations above state their effect through it |
| Playback.Player.QueueLen | player.py:115-117 | the number of queued tracks; `LoadQueue` and `PlayFileNow` state their effect through it |
| Playback.SequentialWalkthrough | player.py:75-100 | on three tracks played from the start, three `next_in_queue` calls end at -1, and a fourth starts over at 0 |
| Text.StripChars | playlist_store.py:54 | the result is empty exactly when every character is stripped; otherwise it starts and ends with a kept character |
| Text.StripIsSlice | playlist_store.py:54 | stripping removes only leading and trailing whitespace: the result is a contiguous slice |
| Text.StripEmptyWhenAllIn | playlist_store.py:54-56 | stripping both ends leaves nothing exactly when every character is stripped |
| Text.StripOfTrimmed | playlist_store.py:54 | a string without whitespace at either end is unchanged by stripping |
| Text.StripIdempotent | playlist_store.py:54 | stripping twice is the same as stripping once |
| Text.LessIrreflexive | playlist_store.py:50 | no name sorts before itself |
| Text.LessTransitive | playlist_store.py:50 | the string order of `sorted` is transitive |
| Text.LessTrichotomy | playlist_store.py:50 | of two different names, exactly one sorts first |
| Text.LessAsymmetric | playlist_store.py:50 | two names never each sort before the other |
| Text.LessEqTransitive | playlist_store.py:50 | "not after" is transitive |
| Text.LeastExists | playlist_store.py:50 | every non-empty set of names has a first name |
| Text.LeastBelowOthers | playlist_store.py:50 | the first name of a set sorts before every other name in it, so it is unique |
| Text.SortedKeys | playlist_store.py:48-50 | every key appears exactly once, in strictly ascending order |
| Text.Stem | playlist_store.py:95-96 | the stem is a prefix of the path's final component, without `/`; when shorter, it ends just before the last `.`, which is neither the first nor the last character; when it is the whole component, every inner `.` is followed by another, so only a final `.` or a leading one is left uncut; it is empty only for an empty final component |
| Playlists.Created | playlist_store.py:52-60 | a blank name fails with EmptyName and a name in use fails with DuplicateName; otherwise the stripped name is added with no tracks and every other playlist is kept |
| Playlists.Deleted | playlist_store.py:62-66 | the name is gone and every other playlist is kept; an unknown name changes nothing |
| Playlists.Renamed | playlist_store.py:68-78 | blank new name fails first; unknown old name changes nothing; a new name used by another playlist fails; otherwise the tracks move to the stripped new name and other playlists are kept |
| Playlists.NewTrack | playlist_store.py:95-99 | the record has the path, the given title or else the path's stem, and a duration only when a non-empty one is given |
| Playlists.WithTrack | playlist_store.py:85-101 | an unknown playlist fails with NoSuchPlaylist; otherwise exactly one record is appended at the end and nothing else changes |
| Playlists.Merged | playlist_store.py:109 | given fields are overwritten, None fields are ignored, every other field is kept |
| Playlists.WithTrackUpdated | playlist_store.py:103-110 | unknown playlist or index changes nothing; otherwise only the record at `index` is merged with the fields |
| Playlists.WithTrackRemoved | playlist_store.py:112-119 | unknown playlist or index changes nothing; otherwise the tracks become `tracks[..i] + tracks[i+1..]` |
| Playlists.DeleteUndoesCreate | playlist_store.py:52-66 | deleting a playlist just created gives back the map it was created in |
| Playlists.CreateTwiceFails | playlist_store.py:52-60 | creating the same name a second time fails with DuplicateName |
| Playlists.RenameRoundTrip | playlist_store.py:68-78 | renaming to an unused name and back gives back the original map |
| Playlists.RenameKeepsCount | playlist_store.py:68-78 | a successful rename never changes the number of playlists |
| Playlists.RenameKeepsOthers | playlist_store.py:68-78 | a successful rename touches only the old and the new name: every other playlist is kept, with its tracks |
| Playlists.RemoveUndoesAdd | playlist_store.py:85-119 | removing the record just appended gives back the original map |
| Playlists.UpdateWithNothingIsIdentity | playlist_store.py:103-110 | an update whose fields are all None changes nothing |
| Playlists.UpdateIdempotent | playlist_store.py:103-110 | applying the same update twice equals applying it once |
| Playlists.CreateRoadtripScenario | playlist_store.py:52-60 | "Roadtrip" can be created in an empty store, and creating it again fails with DuplicateName |
| Playlists.RenameRoadtripScenario | playlist_store.py:48-78 | renaming "Roadtrip" to "Drive" leaves only "Drive", which is the one name listed |
| Playlists.ExampleStem | playlist_store.py:95-96 | the stem of "/x/song.mp3" is "song" |
| Playlists.AddByPathScenario | playlist_store.py:85-101 | a track added by path alone gets the file's stem as its title and no duration |
| Playlists.PlaylistStore.constructor | playlist_store.py:23-45 | a well-formed file is loaded as is; an unreadable one gives an empty store without writing; a missing one gives an empty store that is written once |
| Playlists.PlaylistStore.Save | playlist_store.py:43-45 | the whole current map is written; the map is unchanged |
| Playlists.PlaylistStore.ListPlaylists | playlist_store.py:48-50 | exactly the playlist names, each once, in ascending order |
| Playlists.PlaylistStore.GetTracks | playlist_store.py:81-83 | the playlist's tracks, or none for an unknown name; never fails; every mutator below states its effect on the tracks through it |
| Playlists.PlaylistStore.CreatePlaylist | playlist_store.py:52-60 | the map becomes `Created`'s result and is written once; on success the stripped name is listed with no tracks and no other playlist's tracks change; a failure reports the error and leaves map and disk untouched |
| Playlists.PlaylistStore.DeletePlaylist | playlist_store.py:62-66 | the map becomes `Deleted`'s result; the name is no longer listed and has no tracks, other playlists keep theirs; it is written only when the playlist existed |
| Playlists.PlaylistStore.RenamePlaylist | playlist_store.py:68-78 | the map becomes `Renamed`'s result, written only when a rename happened; the new name then holds the old name's tracks and other playlists keep theirs; a failure leaves map and disk untouched |
| Playlists.PlaylistStore.AddTrack | playlist_store.py:85-101 | the map becomes `WithTrack`'s result and is written; on success the playlist's tracks gain `NewTrack(path, title, duration)` at the end while other playlists keep theirs; an unknown playlist is reported and nothing changes |
| Playlists.PlaylistStore.UpdateTrackAt | playlist_store.py:103-110 | the map becomes `WithTrackUpdated`'s result; for a valid index the track there becomes `Merged(track, fields)` and all other tracks are unchanged, otherwise nothing changes; it is written only when the playlist and index were valid |
| Playlists.PlaylistStore.RemoveTrackAt | playlist_store.py:112-119 | the map becomes `WithTrackRemoved`'s result; for a valid index exactly that track is dropped, keeping the order of the rest, otherwise nothing changes; it is written only when the playlist and index were valid |
| SongList.Node.constructor | main.py:12-15 | a new node holds the song and links to nothing |
| SongList.ChainDistinctAt | main.py:35-41 | a null-terminated chain never reaches the same node twice |
| SongList.AddNodeFile | main.py:35-41 | the list gains one fresh node at the tail; its songs become the old songs followed by `a` |
| SongList.DelNode | main.py:61-66 | on a list with at least one song, exactly the last node is cut off; the songs become the old songs without the last one |
| SongList.CountNodes | main.py:80-86 | called on the header, the count is the number of songs, the header not included |
| SongList.Search | main.py:122-133 | found exactly when some node from `first` on holds the song |
| SongList.HeaderSearchExample | main.py:168-181 | in a playlist named "Mix" with no songs, `play` as written finds "Mix" and the recently-played stack then holds ["Mix"]; the corrected `play` finds nothing and leaves the stack empty |
| SongList.SearchSongs | main.py:168-181 | found exactly when one of the songs after the header is the query |
| SongList.Swapped | main.py:206-218 | the entries at `i` and `i + 1` are exchanged; all others are kept |
| SongList.SwappedPermutes | main.py:206-218 | exchanging two neighbours keeps the same multiset of entries |
| SongList.SongsSwapped | main.py:206-218 | exchanging two nodes exchanges their songs |
| SongList.MaxStepKeep | main.py:219-221 | when `a.song <= b.song` and `a` is left in place, the largest song so far is still at the current index |
| SongList.MaxStepSwap | main.py:206-218 | when `a.song > b.song` and the nodes are exchanged, the largest song so far moves along to the next index |
| SongList.PassDone | main.py:222-224 | when the largest song before `e` sits just before it, the sorted tail grows by one |
| SongList.SwapBelow | main.py:206-218 | exchanging two neighbours before the sorted tail leaves that tail sorted and in place |
| SongList.SwapNodes | main.py:207-218 | relinking `b` before `a` (and `c` to `b`) gives the chain with the two nodes exchanged, still null-terminated |
| SongList.SwapStep | main.py:206-218 | the exchange keeps the chain and the multiset of songs; the larger song moves to index `i + 1`; the sorted tail is kept |
| SongList.PassBoundary | main.py:222-224 | `b` becomes the successor of `a`; when it is `e`, `e` moves back onto `a` and the sorted tail grows by one |
| SongList.PassStep | main.py:205-224 | one inner-loop step keeps `PassState`: the chain is a rearrangement of the one the pass started on, with the same multiset of songs and the sorted tail, and the largest song moves one index further |
| SongList.BubblePass | main.py:203-224 | one pass keeps the chain and the multiset of songs, and grows the sorted tail by one node |
| SongList.Sort | main.py:200-225 | on a non-empty list, the result is the same nodes relinked; its songs are sorted and are a permutation of the input's |
| SongList.SortSongs | main.py:305 | the header stays first, the songs after it end sorted, and they are a permutation of the songs before |
| SongList.Pushed | main.py:142-150 | the song ends on top; the stack below is the old one, or the stack is unchanged when its top is already the song; no two adjacent entries become equal |
| SongList.PushIdempotent | main.py:142-150 | pushing the song just pushed changes nothing |
| SongList.PushGrows | main.py:142-150 | a push adds one entry exactly when the stack is empty or its top is another song |
| SongList.RecentlyPlayed.constructor | main.py:136-138 | the stack starts empty |
| SongList.RecentlyPlayed.Push | main.py:142-150 | the stack's songs become `Pushed(old, data)`; the invariant of no adjacent repeats is kept |
| SongList.RecentlyPlayed.TopElement | main.py:190-196 | nothing exactly when the stack is empty, otherwise the most recent song |
| SongList.RecentlyPlayed.Display | main.py:154-163 | every song on the stack, most recent first |
| SongList.PlayAsWritten | main.py:168-181 | as written: found exactly when the song is the playlist's name or one of its songs; only then is it pushed on the stack, which otherwise is unchanged |
| SongList.Play | main.py:168-181 | corrected (see Findings): found exactly when the song is one of the playlist's songs, the header excluded; only then is it pushed on the stack, which otherwise is unchanged |

## Left out

- The audio library (`pygame.mixer`) is not modelled. Each call into it is
  recorded as a `MixerCall` in the ghost field `mixer`. `get_busy()` is a
  parameter of `Player.IsPlaying`.
- `current_file` is kept as the path string. The normalisation done by
  `Path(file_path)` is not modelled.
- Playlists.NewTrack: stores the path as given. `str(Path(path))` would
  normalise it (for example, collapsing `//` and dropping a trailing `/`),
  and that is not modelled.
- Playback.Player.LoadQueue: requires every track to have a "path" field, as
  the docstrings at player.py:3 and player.py:71 describe the records. The
  source accepts any list and fails later with a `KeyError` (player.py:122)
  when such a track is played.
- Reading and writing JSON is not modelled.
  - The constructor takes the outcome of reading the file as a `DiskFile`:
    missing, unreadable (including a document without a "playlists"
    object), or a map.
  - `_save` appends the map to the ghost log `written`.
- The `ValueError`s of the store are returned as `Fail(error)` outcomes
  rather than raised.
- Text.Stem: follows POSIX `pathlib` rules only (a `/` separator, no drive
  letters). Stripping recognises the characters Python's `str.isspace`
  accepts, with no other Unicode handling.
- The lists and dictionaries the store and player share with their callers
  are modelled as values, so aliasing is not captured. In the source,
  `get_tracks` returns a new list whose records are still shared with the
  store, and `load_queue` copies only the list.
- `update_track_at` takes its keyword arguments as a map from field name to
  an optional value.
- The `prev` field of `Node` is not modelled. These parts of main.py are
  also not modelled:
  - `del_pos` and `del_search` (main.py:91-119, main.py:238-255) rely on
    `prev` links that `add_node_file` never sets correctly.
  - `add_node`, `printlist`, `tofile`, `delete_file`, `addplaylist`,
    `deletemenu`, `recent` and the `main` menu loop are console and file
    I/O.
- SongList.Node.constructor: the header's name is fixed when the node is
  made. The source assigns `start.song` after construction (main.py:278).
- SongList.SortSongs: requires at least one song. On an empty playlist
  `sort(start.next)` dereferences `None` (main.py:202).
- SongList.DelNode: requires at least one song after the header, for the
  same reason (main.py:62).
- Volume is modelled as a `real` clamped into [0, 1]. Floating-point
  rounding and NaN are not.
- Shuffle, history, repeat and the track-finished polling timer are not part
  of this model: they are not in the source files modelled here.
- After a walk has run past the end, `next_in_queue` starts again at the
  first track: from -1 it increments to 0 (player.py:94-96). Advancing is
  therefore never stuck at -1; `Playback.AdvanceCycles` and
  `Playback.SequentialWalkthrough` state this.

## Findings

| source | as written | input that shows it | evidently intended | confidence | as-written member | corrected member |
|---|---|---|---|---|---|---|
| main.py:122-133, main.py:168-181, main.py:297-299 | `search1(start)` and `play(start)` walk from the header node, whose `song` is the playlist's name | a playlist named "Mix" with no songs, searched for "Mix": reported as found (and `play` would push "Mix") | search only the songs after the header | high, not executed | SongList.HeaderSearchExample | SongList.Play |
