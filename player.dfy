/**
 * The playback helper of the MP3 player: a queue of track records, the position
 * in it (-1 when nothing is selected), the paused flag and the file last loaded.
 * The audio library is not modelled; every call the player makes into it is
 * recorded, in order, in the ghost field `mixer`.
 */
module Playback {
  import opened Wrappers
  import opened Tracks

  /** A call into the audio library (`pygame.mixer` and `pygame.mixer.music`). */
  datatype MixerCall =
    | MixerInit
    | MusicLoad(path: string)
    | MusicPlay(start: real)
    | MusicPause
    | MusicUnpause
    | MusicStop
    | MusicSetVolume(volume: real)

  /** The volume a new player starts with. */
  const InitialVolume: real := 0.7

  /** The calls `_play_current_from_queue` and `play_file_now` make for a file. */
  function LoadAndPlay(path: string): seq<MixerCall> {
    [MusicLoad(path), MusicPlay(0.0)]
  }

  // ---------------------------------------------------------------------------
  // Index arithmetic of the queue operations
  // ---------------------------------------------------------------------------

  function Max(a: int, b: int): int { if a < b then b else a }
  function Min(a: int, b: int): int { if a < b then a else b }

  /** `max(0.0, min(1.0, vol))`, the volume handed to the library. */
  function Clamp01(vol: real): (r: real)
    ensures 0.0 <= r <= 1.0
    ensures 0.0 <= vol <= 1.0 ==> r == vol
    ensures vol < 0.0 ==> r == 0.0
    ensures vol > 1.0 ==> r == 1.0
  {
    if vol < 0.0 then 0.0 else if vol > 1.0 then 1.0 else vol
  }

  /** `max(0, min(index, n - 1))`: the position `play_index` selects in a queue of `n` tracks. */
  function ClampIndex(index: int, n: nat): (r: int)
    requires n > 0
    ensures 0 <= r < n
    ensures 0 <= index < n ==> r == index
    ensures index < 0 ==> r == 0
    ensures index >= n ==> r == n - 1
  {
    Max(0, Min(index, n - 1))
  }

  /**
   * The position after `next_in_queue` in a queue of `n` tracks: unchanged when
   * the queue is empty, otherwise one further, or -1 once that runs past the end.
   */
  function NextIndex(index: int, n: nat): (r: int)
    ensures -1 <= index < n ==> -1 <= r < n
    ensures n == 0 ==> r == index
    ensures n > 0 && index + 1 < n ==> r == index + 1
    ensures n > 0 && index + 1 >= n ==> r == -1
  {
    if n == 0 then index
    else if index + 1 < n then index + 1
    else -1
  }

  /**
   * The position after `prev_in_queue` in a queue of `n` tracks: unchanged when
   * the queue is empty, otherwise one back but never below 0.
   */
  function PrevIndex(index: int, n: nat): (r: int)
    ensures -1 <= index < n ==> -1 <= r < n
    ensures n > 0 && -1 <= index < n ==> 0 <= r < n
    ensures n > 0 && index >= 1 ==> r == index - 1
    ensures n > 0 && index <= 1 ==> r == 0
    ensures n == 0 ==> r == index
  {
    if n == 0 then index else Max(0, index - 1)
  }

  /** The position after `k` calls of `next_in_queue`, starting from `index`. */
  function Advance(index: int, n: nat, k: nat): int
    decreases k
  {
    if k == 0 then index else Advance(NextIndex(index, n), n, k - 1)
  }

  /** From any valid position, each `next_in_queue` moves exactly one track further while tracks remain. */
  lemma {:induction false} AdvanceStepsThrough(index: int, n: nat, k: nat)
    requires -1 <= index < n
    requires index + k < n
    ensures Advance(index, n, k) == index + k
    decreases k
  {
    if k > 0 {
      AdvanceStepsThrough(index + 1, n, k - 1);
    }
  }

  /** Running past the last track returns the queue to "nothing selected" (-1). */
  lemma AdvancePastEnd(index: int, n: nat)
    requires n > 0 && -1 <= index < n
    ensures Advance(index, n, n - index) == -1
  {
    var k := n - 1 - index;
    AdvanceStepsThrough(index, n, k);
    AdvanceSplit(index, n, k, 1);
  }

  lemma {:induction false} AdvanceSplit(index: int, n: nat, j: nat, k: nat)
    ensures Advance(index, n, j + k) == Advance(Advance(index, n, j), n, k)
    decreases j
  {
    if j > 0 {
      AdvanceSplit(NextIndex(index, n), n, j - 1, k);
    }
  }

  /**
   * From "nothing selected", `next_in_queue` starts again at the first track:
   * a full walk of `n + 1` steps comes back to -1, so advancing never gets stuck.
   */
  lemma AdvanceCycles(n: nat)
    requires n > 0
    ensures Advance(-1, n, 1) == 0
    ensures Advance(-1, n, n + 1) == -1
  {
    AdvancePastEnd(-1, n);
  }

  /** Stepping back undoes a step forward that stayed inside the queue. */
  lemma PrevUndoesNext(index: int, n: nat)
    requires 0 <= index && index + 1 < n
    ensures PrevIndex(NextIndex(index, n), n) == index
  {
  }

  // ---------------------------------------------------------------------------
  // The player
  // ---------------------------------------------------------------------------

  class Player {
    var currentFile: Option<string>
    var queue: seq<Track>
    var queueIndex: int
    var paused: bool
    /** Every call made into the audio library so far, oldest first. */
    ghost var mixer: seq<MixerCall>

    /** The position is -1 or a valid index, and every queued track can be played. */
    ghost predicate Valid()
      reads this
    {
      -1 <= queueIndex < |queue| && forall i :: 0 <= i < |queue| ==> HasPath(queue[i])
    }

    constructor ()
      ensures Valid()
      ensures currentFile == None && queue == [] && queueIndex == -1 && !paused
      ensures mixer == [MixerInit, MusicSetVolume(InitialVolume)]
    {
      currentFile := None;
      queue := [];
      queueIndex := -1;
      paused := false;
      mixer := [MixerInit, MusicSetVolume(InitialVolume)];
    }

    /** `load`: remembers the file and hands it to the library; playback does not start. */
    method Load(filePath: string)
      requires Valid()
      modifies this
      ensures Valid()
      ensures currentFile == Some(filePath)
      ensures mixer == old(mixer) + [MusicLoad(filePath)]
      ensures queue == old(queue) && queueIndex == old(queueIndex) && paused == old(paused)
    {
      currentFile := Some(filePath);
      mixer := mixer + [MusicLoad(filePath)];
    }

    /** `play`: starts playback and clears `paused`, but only once a file has been loaded. */
    method Play(startPos: real)
      requires Valid()
      modifies this
      ensures Valid()
      ensures old(currentFile).None? ==> unchanged(this)
      ensures old(currentFile).Some? ==> !paused && mixer == old(mixer) + [MusicPlay(startPos)]
      ensures old(currentFile).Some? ==> IsPlaying(true)
      ensures currentFile == old(currentFile) && queue == old(queue) && queueIndex == old(queueIndex)
    {
      if currentFile.None? {
        return;
      }
      mixer := mixer + [MusicPlay(startPos)];
      paused := false;
    }

    /** `pause`: toggles between paused and playing. */
    method Pause()
      requires Valid()
      modifies this
      ensures Valid()
      ensures paused == !old(paused)
      ensures IsPlaying(true) <==> !old(IsPlaying(true))
      ensures mixer == old(mixer) + [if old(paused) then MusicUnpause else MusicPause]
      ensures currentFile == old(currentFile) && queue == old(queue) && queueIndex == old(queueIndex)
    {
      if paused {
        mixer := mixer + [MusicUnpause];
        paused := false;
      } else {
        mixer := mixer + [MusicPause];
        paused := true;
      }
    }

    /** `stop`: stops playback and clears `paused`; the position is left alone. */
    method Stop()
      modifies this
      ensures !paused && mixer == old(mixer) + [MusicStop]
      ensures forall busy :: IsPlaying(busy) == busy
      ensures currentFile == old(currentFile) && queue == old(queue) && queueIndex == old(queueIndex)
    {
      mixer := mixer + [MusicStop];
      paused := false;
    }

    /** `set_volume`: the library receives the volume clamped into [0, 1]. */
    method SetVolume(vol: real)
      requires Valid()
      modifies this
      ensures Valid()
      ensures mixer == old(mixer) + [MusicSetVolume(Clamp01(vol))]
      ensures currentFile == old(currentFile) && queue == old(queue)
      ensures queueIndex == old(queueIndex) && paused == old(paused)
    {
      mixer := mixer + [MusicSetVolume(Clamp01(vol))];
    }

    /** `is_playing`, given what the library reports for `get_busy()`. */
    function IsPlaying(busy: bool): bool
      reads this
    {
      busy && !paused
    }

    /** `play_file_now`: empties the queue, then loads and plays the one file. */
    method PlayFileNow(filePath: string)
      requires Valid()
      modifies this
      ensures Valid()
      ensures queue == [] && queueIndex == -1
      ensures QueueLen() == 0 && CurrentTrack() == None
      ensures currentFile == Some(filePath) && !paused && IsPlaying(true)
      ensures mixer == old(mixer) + LoadAndPlay(filePath)
    {
      queue := [];
      queueIndex := -1;
      Load(filePath);
      Play(0.0);
    }

    /** `load_queue`: the queue becomes a copy of `tracks` with nothing selected; nothing else changes. */
    method LoadQueue(tracks: seq<Track>)
      requires Valid()
      requires forall t :: t in tracks ==> HasPath(t)
      modifies this
      ensures Valid()
      ensures queue == tracks && queueIndex == -1
      ensures QueueLen() == |tracks| && CurrentTrack() == None
      ensures currentFile == old(currentFile) && paused == old(paused) && mixer == old(mixer)
    {
      queue := tracks;
      queueIndex := -1;
    }

    /** `_play_current_from_queue`: loads and plays the selected track's path. */
    method PlayCurrentFromQueue()
      requires Valid() && 0 <= queueIndex < |queue|
      modifies this
      ensures Valid()
      ensures queue == old(queue) && queueIndex == old(queueIndex)
      ensures currentFile == Some(queue[queueIndex][PathKey]) && !paused
      ensures mixer == old(mixer) + LoadAndPlay(queue[queueIndex][PathKey])
      ensures CurrentTrack() == Some(queue[queueIndex]) && IsPlaying(true)
    {
      var track := queue[queueIndex];
      Load(track[PathKey]);
      Play(0.0);
    }

    /** `play_queue_from_start`: selects and plays the first track; no-op on an empty queue. */
    method PlayQueueFromStart()
      requires Valid()
      modifies this
      ensures Valid() && queue == old(queue)
      ensures old(queue) == [] ==> unchanged(this)
      ensures old(queue) != [] ==> queueIndex == 0 && currentFile == Some(queue[0][PathKey]) && !paused
      ensures old(queue) != [] ==> CurrentTrack() == Some(queue[0]) && IsPlaying(true)
      ensures old(queue) != [] ==> mixer == old(mixer) + LoadAndPlay(queue[0][PathKey])
    {
      if queue == [] {
        return;
      }
      queueIndex := 0;
      PlayCurrentFromQueue();
    }

    /** `play_index`: selects `index` clamped into the queue and plays it; no-op on an empty queue. */
    method PlayIndex(index: int)
      requires Valid()
      modifies this
      ensures Valid() && queue == old(queue)
      ensures old(queue) == [] ==> unchanged(this)
      ensures old(queue) != [] ==> queueIndex == ClampIndex(index, |queue|)
      ensures old(queue) != [] ==> CurrentTrack() == Some(queue[ClampIndex(index, |queue|)]) && IsPlaying(true)
      ensures old(queue) != [] ==> currentFile == Some(queue[queueIndex][PathKey]) && !paused
      ensures old(queue) != [] ==> mixer == old(mixer) + LoadAndPlay(queue[queueIndex][PathKey])
    {
      if queue == [] {
        return;
      }
      var i := Max(0, Min(index, |queue| - 1));
      queueIndex := i;
      PlayCurrentFromQueue();
    }

    /**
     * `next_in_queue`: moves one track further and plays it; past the last track
     * it stops playback and selects nothing. No-op on an empty queue.
     */
    method NextInQueue()
      requires Valid()
      modifies this
      ensures Valid() && queue == old(queue)
      ensures queueIndex == NextIndex(old(queueIndex), |queue|)
      ensures old(queue) != [] ==> (CurrentTrack().None? <==> queueIndex == -1)
      ensures old(queue) != [] && old(queueIndex) + 1 < |queue| ==>
        CurrentTrack() == Some(queue[old(queueIndex) + 1]) && IsPlaying(true)
      ensures old(queue) == [] ==> unchanged(this)
      ensures old(queue) != [] && queueIndex >= 0 ==>
        currentFile == Some(queue[queueIndex][PathKey]) && !paused &&
        mixer == old(mixer) + LoadAndPlay(queue[queueIndex][PathKey])
      ensures old(queue) != [] && queueIndex == -1 ==>
        currentFile == old(currentFile) && !paused && mixer == old(mixer) + [MusicStop]
    {
      if queue == [] {
        return;
      }
      queueIndex := queueIndex + 1;
      if queueIndex < |queue| {
        PlayCurrentFromQueue();
      } else {
        Stop();
        queueIndex := -1;
      }
    }

    /** `prev_in_queue`: moves one track back, never below the first, and plays it. No-op on an empty queue. */
    method PrevInQueue()
      requires Valid()
      modifies this
      ensures Valid() && queue == old(queue)
      ensures queueIndex == PrevIndex(old(queueIndex), |queue|)
      ensures old(queue) == [] ==> unchanged(this)
      ensures old(queue) != [] ==> CurrentTrack() == Some(queue[PrevIndex(old(queueIndex), |queue|)])
      ensures old(queue) != [] ==> currentFile == Some(queue[queueIndex][PathKey]) && !paused
      ensures old(queue) != [] ==> mixer == old(mixer) + LoadAndPlay(queue[queueIndex][PathKey])
    {
      if queue == [] {
        return;
      }
      queueIndex := Max(0, queueIndex - 1);
      PlayCurrentFromQueue();
    }

    /** `current_track`: the selected track exactly when the position is a valid index. */
    function CurrentTrack(): (r: Option<Track>)
      reads this
      ensures r.Some? <==> 0 <= queueIndex < |queue|
      ensures r.Some? ==> r.value == queue[queueIndex]
    {
      if queue != [] && 0 <= queueIndex < |queue| then Some(queue[queueIndex]) else None
    }

    /** `queue_len`. */
    function QueueLen(): (n: nat)
      reads this
      ensures n == |queue|
    {
      |queue|
    }
  }

  /**
   * A queue of three tracks played from the start: three calls of
   * `next_in_queue` end with nothing selected, and a fourth starts over at the
   * first track instead of doing nothing.
   */
  method SequentialWalkthrough(a: Track, b: Track, c: Track) returns (afterThree: int, afterFour: int)
    requires HasPath(a) && HasPath(b) && HasPath(c)
    ensures afterThree == -1 && afterFour == 0
  {
    var p := new Player();
    p.LoadQueue([a, b, c]);
    p.PlayQueueFromStart();
    assert p.queueIndex == 0;
    p.NextInQueue();
    p.NextInQueue();
    p.NextInQueue();
    afterThree := p.queueIndex;
    p.NextInQueue();
    afterFour := p.queueIndex;
  }
}
