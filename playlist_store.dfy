/**
 * The playlist store of the MP3 player: a map from playlist name to its ordered
 * list of track records, written through to disk after every change. The
 * operations are first given as functions on the map (`Created`, `Renamed`, ...)
 * and proved to relate to one another; the `PlaylistStore` class then performs
 * them in place, step by step as the source does, and is proved to agree with
 * those functions. Disk writes are recorded in the ghost field `written`.
 */
module Playlists {
  import opened Wrappers
  import opened Tracks
  import opened Text

  /** The "playlists" object of the store: name to ordered track records. */
  type PlaylistMap = map<string, seq<Track>>

  /** The `ValueError`s the store raises. */
  datatype StoreError = EmptyName | DuplicateName | NoSuchPlaylist

  /** What `_load` finds on disk (the JSON parsing itself is not modelled). */
  datatype DiskFile =
    | Missing                        // no file yet
    | Unreadable                     // not JSON, or no "playlists" object in it
    | Holds(playlists: PlaylistMap)  // a well-formed document

  /** Python truthiness of an optional string: given, and not empty. */
  predicate Given(s: Option<string>) {
    s.Some? && s.value != ""
  }

  // ---------------------------------------------------------------------------
  // Playlist operations as functions on the map
  // ---------------------------------------------------------------------------

  /**
   * `create_playlist`: the name is stripped first; a blank name and a name in
   * use are refused, anything else becomes a new, empty playlist.
   */
  function Created(m: PlaylistMap, name: string): (r: Result<PlaylistMap, StoreError>)
    ensures Strip(name) == [] ==> r == Failure(EmptyName)
    ensures Strip(name) != [] && Strip(name) in m ==> r == Failure(DuplicateName)
    ensures r.Success? <==> Strip(name) != [] && Strip(name) !in m
    ensures r.Success? ==> r.value.Keys == m.Keys + {Strip(name)} && r.value[Strip(name)] == []
    ensures r.Success? ==> forall k :: k in m ==> r.value[k] == m[k]
  {
    var n := Strip(name);
    if n == [] then Failure(EmptyName)
    else if n in m then Failure(DuplicateName)
    else Success(m[n := []])
  }

  /** `delete_playlist`: the name disappears, every other playlist stays as it was. */
  function Deleted(m: PlaylistMap, name: string): (r: PlaylistMap)
    ensures r.Keys == m.Keys - {name}
    ensures forall k :: k in r ==> r[k] == m[k]
    ensures name !in m ==> r == m
  {
    m - {name}
  }

  /**
   * `rename_playlist`: a blank new name is refused before anything else; an
   * unknown old name leaves the map alone; a new name already used by another
   * playlist is refused; otherwise the tracks move to the stripped new name.
   */
  function Renamed(m: PlaylistMap, oldName: string, newName: string): (r: Result<PlaylistMap, StoreError>)
    ensures Strip(newName) == [] ==> r == Failure(EmptyName)
    ensures Strip(newName) != [] && oldName !in m ==> r == Success(m)
    ensures r.Failure? <==> Strip(newName) == [] || (oldName in m && Strip(newName) in m && Strip(newName) != oldName)
    ensures r.Failure? && Strip(newName) != [] ==> r.error == DuplicateName
    ensures r.Success? && oldName in m ==>
      r.value.Keys == m.Keys - {oldName} + {Strip(newName)} && r.value[Strip(newName)] == m[oldName]
    ensures r.Success? ==> forall k :: k in m && k != oldName ==> k in r.value && r.value[k] == m[k]
  {
    var n := Strip(newName);
    if n == [] then Failure(EmptyName)
    else if oldName !in m then Success(m)
    else if n in m && n != oldName then Failure(DuplicateName)
    else Success((m - {oldName})[n := m[oldName]])
  }

  /** A rename touches only the old and the new name: every other playlist keeps its tracks. */
  lemma RenameKeepsOthers(m: PlaylistMap, oldName: string, newName: string, k: string)
    requires Renamed(m, oldName, newName).Success? && k != oldName && k != Strip(newName)
    ensures k in Renamed(m, oldName, newName).value <==> k in m
    ensures k in m ==> Renamed(m, oldName, newName).value[k] == m[k]
  {
  }

  // ---------------------------------------------------------------------------
  // Track operations as functions on the map
  // ---------------------------------------------------------------------------

  /**
   * The record `add_track` appends: the path; the given title, or the path's
   * stem when no title (or an empty one) is given; and a duration only when a
   * non-empty one is given.
   */
  function NewTrack(path: string, title: Option<string>, duration: Option<string>): (t: Track)
    ensures t.Keys == {PathKey, TitleKey} + (if Given(duration) then {DurationKey} else {})
    ensures t[PathKey] == path
    ensures t[TitleKey] == if Given(title) then title.value else Stem(path)
    ensures Given(duration) ==> t[DurationKey] == duration.value
  {
    var item := map[PathKey := path, TitleKey := if Given(title) then title.value else Stem(path)];
    if Given(duration) then item[DurationKey := duration.value] else item
  }

  /** `add_track`: refused for an unknown playlist, otherwise one record goes on the end. */
  function WithTrack(m: PlaylistMap, playlist: string, path: string, title: Option<string>,
                     duration: Option<string>): (r: Result<PlaylistMap, StoreError>)
    ensures r.Failure? <==> playlist !in m
    ensures r.Failure? ==> r.error == NoSuchPlaylist
    ensures r.Success? ==> r.value.Keys == m.Keys
    ensures r.Success? ==> r.value[playlist] == m[playlist] + [NewTrack(path, title, duration)]
    ensures r.Success? ==> forall k :: k in m && k != playlist ==> r.value[k] == m[k]
  {
    if playlist !in m then Failure(NoSuchPlaylist)
    else Success(m[playlist := m[playlist] + [NewTrack(path, title, duration)]])
  }

  /** `dict.update` with only the fields whose new value is not None. */
  function Merged(t: Track, fields: map<string, Option<string>>): (r: Track)
    ensures r.Keys == t.Keys + (set k | k in fields && fields[k].Some?)
    ensures forall k :: k in fields && fields[k].Some? ==> r[k] == fields[k].value
    ensures forall k :: k in t && (k !in fields || fields[k].None?) ==> r[k] == t[k]
  {
    t + map k | k in fields && fields[k].Some? :: fields[k].value
  }

  /** `update_track_at`: merges the fields into one record; an unknown playlist or index changes nothing. */
  function WithTrackUpdated(m: PlaylistMap, playlist: string, index: int,
                            fields: map<string, Option<string>>): (r: PlaylistMap)
    ensures r.Keys == m.Keys
    ensures forall k :: k in m && k != playlist ==> r[k] == m[k]
    ensures playlist !in m || !(0 <= index < |m[playlist]|) ==> r == m
    ensures playlist in m && 0 <= index < |m[playlist]| ==>
      |r[playlist]| == |m[playlist]| &&
      r[playlist][index] == Merged(m[playlist][index], fields) &&
      forall j :: 0 <= j < |m[playlist]| && j != index ==> r[playlist][j] == m[playlist][j]
  {
    if playlist !in m then m
    else
      var tracks := m[playlist];
      if 0 <= index < |tracks| then m[playlist := tracks[index := Merged(tracks[index], fields)]]
      else m
  }

  /** `remove_track_at`: drops one record, keeping the order of the rest; an unknown playlist or index changes nothing. */
  function WithTrackRemoved(m: PlaylistMap, playlist: string, index: int): (r: PlaylistMap)
    ensures r.Keys == m.Keys
    ensures forall k :: k in m && k != playlist ==> r[k] == m[k]
    ensures playlist !in m || !(0 <= index < |m[playlist]|) ==> r == m
    ensures playlist in m && 0 <= index < |m[playlist]| ==>
      r[playlist] == m[playlist][..index] + m[playlist][index + 1..]
  {
    if playlist !in m then m
    else
      var tracks := m[playlist];
      if 0 <= index < |tracks| then m[playlist := tracks[..index] + tracks[index + 1..]]
      else m
  }

  // ---------------------------------------------------------------------------
  // How the operations relate
  // ---------------------------------------------------------------------------

  /** Deleting a playlist just created gives back the map it was created in. */
  lemma DeleteUndoesCreate(m: PlaylistMap, name: string)
    requires Created(m, name).Success?
    ensures Deleted(Created(m, name).value, Strip(name)) == m
  {
    var n := Strip(name);
    assert Deleted(Created(m, name).value, n).Keys == m.Keys;
  }

  /** A name, once created, is refused by a second `create_playlist`. */
  lemma CreateTwiceFails(m: PlaylistMap, name: string)
    requires Created(m, name).Success?
    ensures Created(Created(m, name).value, name) == Failure(DuplicateName)
  {
  }

  /** Renaming to an unused name and back gives back the original map. */
  lemma RenameRoundTrip(m: PlaylistMap, a: string, b: string)
    requires a in m && a != [] && Strip(a) == a
    requires Strip(b) == b && b != [] && b !in m
    ensures Renamed(m, a, b).Success?
    ensures Renamed(Renamed(m, a, b).value, b, a) == Success(m)
  {
    var m1 := (m - {a})[b := m[a]];
    assert Renamed(m, a, b) == Success(m1);
    var m2 := (m1 - {b})[a := m1[b]];
    assert Renamed(m1, b, a) == Success(m2);
    assert m2.Keys == m.Keys;
    assert forall k :: k in m ==> m2[k] == m[k];
    assert m2 == m;
    calc {
      Renamed(Renamed(m, a, b).value, b, a);
      Renamed(m1, b, a);
      Success(m);
    }
  }

  /** Renaming never changes how many playlists there are. */
  lemma RenameKeepsCount(m: PlaylistMap, oldName: string, newName: string)
    requires Renamed(m, oldName, newName).Success?
    ensures |Renamed(m, oldName, newName).value| == |m|
  {
    var r := Renamed(m, oldName, newName).value;
    if oldName in m {
      var n := Strip(newName);
      if n == oldName {
        assert r.Keys == m.Keys;
      } else {
        assert r.Keys == (m.Keys - {oldName}) + {n};
        assert |m.Keys - {oldName}| == |m.Keys| - 1;
      }
    }
  }

  /** Removing the track just added gives back the map it was added to. */
  lemma RemoveUndoesAdd(m: PlaylistMap, playlist: string, path: string, title: Option<string>,
                        duration: Option<string>)
    requires playlist in m
    ensures WithTrackRemoved(WithTrack(m, playlist, path, title, duration).value, playlist, |m[playlist]|) == m
  {
    var added := WithTrack(m, playlist, path, title, duration).value;
    var tracks := m[playlist] + [NewTrack(path, title, duration)];
    assert tracks[..|m[playlist]|] + tracks[|m[playlist]| + 1..] == m[playlist];
    assert WithTrackRemoved(added, playlist, |m[playlist]|).Keys == m.Keys;
  }

  /** An update whose fields are all None leaves the map as it was. */
  lemma UpdateWithNothingIsIdentity(m: PlaylistMap, playlist: string, index: int,
                                    fields: map<string, Option<string>>)
    requires forall k :: k in fields ==> fields[k].None?
    ensures WithTrackUpdated(m, playlist, index, fields) == m
  {
    if playlist in m && 0 <= index < |m[playlist]| {
      var t := m[playlist][index];
      assert Merged(t, fields) == t;
      assert m[playlist][index := t] == m[playlist];
    }
  }

  /** Applying the same update twice is the same as applying it once. */
  lemma UpdateIdempotent(m: PlaylistMap, playlist: string, index: int,
                         fields: map<string, Option<string>>)
    ensures WithTrackUpdated(WithTrackUpdated(m, playlist, index, fields), playlist, index, fields)
         == WithTrackUpdated(m, playlist, index, fields)
  {
    if playlist in m && 0 <= index < |m[playlist]| {
      var once := WithTrackUpdated(m, playlist, index, fields);
      var t := once[playlist][index];
      assert Merged(t, fields) == t;
      assert once[playlist][index := t] == once[playlist];
    }
  }

  /**
   * Example: in a new store "Roadtrip" can be created once, and a second
   * creation is refused as a duplicate.
   */
  lemma CreateRoadtripScenario()
    ensures Created(map[], "Roadtrip") == Success(map["Roadtrip" := []])
    ensures Created(map["Roadtrip" := []], "Roadtrip") == Failure(DuplicateName)
  {
    var m0: PlaylistMap := map[];
    var m1: PlaylistMap := map["Roadtrip" := []];
    assert Strip("Roadtrip") == "Roadtrip" by { StripOfTrimmed("Roadtrip", IsSpace); }
    assert Created(m0, "Roadtrip") == Success(m1);
    assert Created(m1, "Roadtrip") == Failure(DuplicateName);
  }

  /**
   * Example: after renaming "Roadtrip" to "Drive" the only name listed is
   * "Drive".
   */
  lemma RenameRoadtripScenario()
    ensures Renamed(map["Roadtrip" := []], "Roadtrip", "Drive") == Success(map["Drive" := []])
    ensures SortedKeys({"Drive"}) == ["Drive"]
  {
    var m1: PlaylistMap := map["Roadtrip" := []];
    var m2: PlaylistMap := map["Drive" := []];
    assert Renamed(m1, "Roadtrip", "Drive") == Success(m2) by {
      assert Strip("Drive") == "Drive" by { StripOfTrimmed("Drive", IsSpace); }
      assert "Drive" != "Roadtrip" by { assert "Drive"[0] != "Roadtrip"[0]; }
      assert (m1 - {"Roadtrip"})["Drive" := []] == m2;
    }
    var names := SortedKeys({"Drive"});
    assert |names| == 1 && "Drive" in names;
  }

  /** The stem of the example path "/x/song.mp3" is "song". */
  lemma ExampleStem()
    ensures Stem("/x/song.mp3") == "song"
  {
    ExampleName();
    ExampleStemOfName();
  }

  /** The last component of "/x/song.mp3" is "song.mp3". */
  lemma ExampleName()
    ensures Name("/x/song.mp3") == "song.mp3"
  {
    var p := "/x/song.mp3";
    assert p[2] == '/' && p[..2] == "/x" && p[3..] == "song.mp3";
    assert RFind(p, '/') == 2;
    ExampleDirectory();
    assert Parts(p) == ["x", "song.mp3"];
  }

  /** The directory "/x" has the one component "x". */
  lemma ExampleDirectory()
    ensures Parts("/x") == ["x"]
  {
    assert "/x"[0] == '/' && "/x"[..0] == "" && "/x"[1..] == "x";
    assert RFind("/x", '/') == 0;
    assert Parts("") == [];
  }

  /** "song.mp3" loses its suffix ".mp3". */
  lemma ExampleStemOfName()
    ensures StemOfName("song.mp3") == "song"
  {
    assert "song.mp3"[4] == '.' && "song.mp3"[..4] == "song";
    assert RFind("song.mp3", '.') == 4;
  }

  /**
   * Example: a track added by path alone to a new playlist is titled by the
   * file's stem and has no duration.
   */
  lemma AddByPathScenario()
    ensures Created(map[], "A").Success?
    ensures WithTrack(Created(map[], "A").value, "A", "/x/song.mp3", None, None).Success?
    ensures WithTrack(Created(map[], "A").value, "A", "/x/song.mp3", None, None).value["A"]
         == [map[PathKey := "/x/song.mp3", TitleKey := "song"]]
  {
    assert Strip("A") == "A" by { StripOfTrimmed("A", IsSpace); }
    ExampleStem();
    var m0: PlaylistMap := map[];
    var m1 := m0["A" := []];
    assert Created(m0, "A") == Success(m1);
    assert NewTrack("/x/song.mp3", None, None) == map[PathKey := "/x/song.mp3", TitleKey := "song"];
  }

  // ---------------------------------------------------------------------------
  // The store, changed in place
  // ---------------------------------------------------------------------------

  class PlaylistStore {
    var playlists: PlaylistMap
    /** Every document written to disk, oldest first. */
    ghost var written: seq<PlaylistMap>

    /** Write-through: once anything has been written, the disk holds the current map. */
    ghost predicate Valid()
      reads this
    {
      written != [] ==> written[|written| - 1] == playlists
    }

    /** `__init__` and `_load`: a missing file is created empty; an unreadable one is replaced in memory only. */
    constructor (file: DiskFile)
      ensures Valid()
      ensures file.Holds? ==> playlists == file.playlists && written == []
      ensures file.Unreadable? ==> playlists == map[] && written == []
      ensures file.Missing? ==> playlists == map[] && written == [map[]]
    {
      written := [];
      playlists := if file.Holds? then file.playlists else map[];
      new;
      if file.Missing? {
        Save();
      }
    }

    /** `_save`: writes the whole map. */
    method Save()
      modifies this
      ensures Valid()
      ensures playlists == old(playlists) && written == old(written) + [playlists]
    {
      written := written + [playlists];
    }

    /** `list_playlists`: every name once, in ascending order. */
    function ListPlaylists(): (names: seq<string>)
      reads this
      ensures |names| == |playlists|
      ensures forall k :: k in names <==> k in playlists
      ensures forall i, j :: 0 <= i < j < |names| ==> Less(names[i], names[j])
    {
      SortedKeys(playlists.Keys)
    }

    /** `get_tracks`: the playlist's tracks, or none for an unknown name; never raises. */
    function GetTracks(playlist: string): (tracks: seq<Track>)
      reads this
      ensures playlist in playlists ==> tracks == playlists[playlist]
      ensures playlist !in playlists ==> tracks == []
    {
      if playlist in playlists then playlists[playlist] else []
    }

    method CreatePlaylist(name: string) returns (outcome: Outcome<StoreError>)
      requires Valid()
      modifies this
      ensures Valid()
      ensures var r := Created(old(playlists), name);
        if r.Success? then outcome == Pass && playlists == r.value && written == old(written) + [playlists]
        else outcome == Fail(r.error) && playlists == old(playlists) && written == old(written)
      ensures outcome == Pass ==> Strip(name) in ListPlaylists() && GetTracks(Strip(name)) == []
      ensures forall k :: k != Strip(name) ==> GetTracks(k) == old(GetTracks(k))
    {
      var n := Strip(name);
      if n == [] {
        return Fail(EmptyName);
      }
      if n in playlists {
        return Fail(DuplicateName);
      }
      playlists := playlists[n := []];
      Save();
      outcome := Pass;
    }

    method DeletePlaylist(name: string)
      requires Valid()
      modifies this
      ensures Valid()
      ensures playlists == Deleted(old(playlists), name)
      ensures name !in ListPlaylists() && GetTracks(name) == []
      ensures forall k :: k != name ==> GetTracks(k) == old(GetTracks(k))
      ensures written == if name in old(playlists) then old(written) + [playlists] else old(written)
    {
      if name in playlists {
        playlists := playlists - {name};
        Save();
      }
    }

    method RenamePlaylist(oldName: string, newName: string) returns (outcome: Outcome<StoreError>)
      requires Valid()
      modifies this
      ensures Valid()
      ensures var r := Renamed(old(playlists), oldName, newName);
        if r.Success? then
          outcome == Pass && playlists == r.value &&
          written == if oldName in old(playlists) then old(written) + [playlists] else old(written)
        else outcome == Fail(r.error) && playlists == old(playlists) && written == old(written)
      ensures outcome == Pass && oldName in old(playlists) ==>
        GetTracks(Strip(newName)) == old(GetTracks(oldName))
      ensures forall k :: k != oldName && k != Strip(newName) ==> GetTracks(k) == old(GetTracks(k))
    {
      var n := Strip(newName);
      if n == [] {
        return Fail(EmptyName);
      }
      if oldName !in playlists {
        return Pass;
      }
      if n in playlists && n != oldName {
        return Fail(DuplicateName);
      }
      var tracks := playlists[oldName];
      playlists := playlists - {oldName};
      playlists := playlists[n := tracks];
      Save();
      assert playlists == Renamed(old(playlists), oldName, newName).value;
      forall k | k != oldName && k != n
        ensures GetTracks(k) == old(GetTracks(k))
      {
        RenameKeepsOthers(old(playlists), oldName, newName, k);
      }
      outcome := Pass;
    }

    method AddTrack(playlist: string, path: string, title: Option<string>, duration: Option<string>)
      returns (outcome: Outcome<StoreError>)
      requires Valid()
      modifies this
      ensures Valid()
      ensures var r := WithTrack(old(playlists), playlist, path, title, duration);
        if r.Success? then outcome == Pass && playlists == r.value && written == old(written) + [playlists]
        else outcome == Fail(r.error) && playlists == old(playlists) && written == old(written)
      ensures outcome == Pass ==> GetTracks(playlist) == old(GetTracks(playlist)) + [NewTrack(path, title, duration)]
      ensures forall k :: k != playlist ==> GetTracks(k) == old(GetTracks(k))
    {
      if playlist !in playlists {
        return Fail(NoSuchPlaylist);
      }
      playlists := playlists[playlist := playlists[playlist] + [NewTrack(path, title, duration)]];
      Save();
      outcome := Pass;
    }

    method UpdateTrackAt(playlist: string, index: int, fields: map<string, Option<string>>)
      requires Valid()
      modifies this
      ensures Valid()
      ensures playlists == WithTrackUpdated(old(playlists), playlist, index, fields)
      ensures written == if playlist in old(playlists) && 0 <= index < |old(playlists)[playlist]|
        then old(written) + [playlists] else old(written)
      ensures 0 <= index < |old(GetTracks(playlist))| ==>
        GetTracks(playlist) == old(GetTracks(playlist))[index := Merged(old(GetTracks(playlist))[index], fields)]
      ensures !(0 <= index < |old(GetTracks(playlist))|) ==> GetTracks(playlist) == old(GetTracks(playlist))
      ensures forall k :: k != playlist ==> GetTracks(k) == old(GetTracks(k))
    {
      if playlist !in playlists {
        return;
      }
      var tracks := playlists[playlist];
      if 0 <= index < |tracks| {
        playlists := playlists[playlist := tracks[index := Merged(tracks[index], fields)]];
        Save();
      }
    }

    method RemoveTrackAt(playlist: string, index: int)
      requires Valid()
      modifies this
      ensures Valid()
      ensures playlists == WithTrackRemoved(old(playlists), playlist, index)
      ensures written == if playlist in old(playlists) && 0 <= index < |old(playlists)[playlist]|
        then old(written) + [playlists] else old(written)
      ensures 0 <= index < |old(GetTracks(playlist))| ==>
        GetTracks(playlist) == old(GetTracks(playlist))[..index] + old(GetTracks(playlist))[index + 1..]
      ensures !(0 <= index < |old(GetTracks(playlist))|) ==> GetTracks(playlist) == old(GetTracks(playlist))
      ensures forall k :: k != playlist ==> GetTracks(k) == old(GetTracks(k))
    {
      if playlist !in playlists {
        return;
      }
      var tracks := playlists[playlist];
      if 0 <= index < |tracks| {
        playlists := playlists[playlist := tracks[..index] + tracks[index + 1..]];
        Save();
      }
    }
  }
}
