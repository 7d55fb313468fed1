/**
 * The timeline document model (`src/editor/timeline/Timeline.js`): an ordered
 * list of tracks, the current track, play state, the time base kept by the
 * timebar, an undo history of track intents, and saving and loading the whole
 * document as a record.
 */
module Timelines {
  import opened Seqs
  import opened JsNumbers

  datatype Option<T> = None | Some(value: T)

  /**
   * What a track type (an entry of `am.trackTypes`) computes from a track's
   * save data: whether the type defines `getMagnetPoints`, the magnet times,
   * and the player generator script. The track classes are not part of this
   * model, so these are given as functions.
   */
  datatype TrackClass = TrackClass(
    definesMagnetPoints: bool,
    magnetPointsOf: string -> seq<real>,
    scriptOf: string -> string)

  /** A track handle: its type tag, its class, its save data, and the timeline it sits in. */
  class Track {
    const kind: string
    const cls: TrackClass
    const data: string
    var parentTimeline: Timeline?
    /** Whether the track shows as selected. */
    var selected: bool

    /** `new TrackClass(data, timeline)`. */
    constructor (kind: string, cls: TrackClass, data: string)
      ensures this.kind == kind && this.cls == cls && this.data == data
      ensures parentTimeline == null && !selected
    {
      this.kind := kind;
      this.cls := cls;
      this.data := data;
      parentTimeline := null;
      selected := false;
    }

    /** `track.deselect()`. */
    method Deselect()
      modifies this`selected
      ensures !selected
    {
      selected := false;
    }

    /** `track.getSave()`: a track's own save is the data it was built from. */
    function GetSave(): string {
      data
    }

    function GetMagnetPoints(): seq<real> {
      cls.magnetPointsOf(data)
    }

    function GetScript(): string {
      cls.scriptOf(data)
    }
  }

  /** One side of a history entry: the track operation it replays. */
  datatype TrackAction = AddAction(track: Track) | RemoveAction(track: Track)

  /** An `am.history.save({undo, redo, name})` entry. */
  datatype Intent = Intent(undo: TrackAction, redo: TrackAction, name: string)

  /** The timebar's state as the timeline uses it. */
  datatype Timebar = Timebar(currTime: real, timescale: real, length: real, start: real, magnetPoints: seq<real>)

  datatype TimebarSave = TimebarSave(currTime: real, timescale: real, length: real)
  datatype TrackSave = TrackSave(kind: string, data: string)

  /**
   * The document record of `getSave`/`useSave`. The tracks are stored under
   * `tracks`; the easing and trigger maps are their own opaque saves; the
   * current-track index is present only when a track is current.
   */
  datatype Save = Save(
    timebar: TimebarSave,
    tracks: seq<TrackSave>,
    easeMap: Option<string>,
    triggerMap: Option<string>,
    currTrackIdx: Option<int>)

  datatype LoadError = UnknownTrackType(kind: string) | NoTrackAt(index: int)
  datatype LoadResult = Loaded | Failed(error: LoadError)

  /** What `getScript` hands to the script template. */
  datatype ScriptParts = ScriptParts(trackPlayerGens: string, triggerScript: string)

  /** `addTrack` on a list: the track is appended unless it is already there. */
  function Added<T(==)>(s: seq<T>, t: T): (r: seq<T>)
    ensures t in r
  {
    if t in s then s else s + [t]
  }

  /** Undoing an add of a new track (a remove) restores the list. */
  lemma UndoAdd<T>(s: seq<T>, t: T)
    requires t !in s
    ensures Without(Added(s, t), t) == s
  {
    WithoutAppend(s, [t], t);
    WithoutAbsent(s, t);
    assert Without([t], t) == [];
  }

  /**
   * Undoing a remove (an add) brings the track back with the same list
   * members, but at the end of the list rather than where it was.
   */
  lemma UndoRemove<T>(s: seq<T>, t: T)
    requires Distinct(s) && t in s
    ensures var i := IndexOf(s, t); Added(Without(s, t), t) == s[..i] + s[i + 1..] + [t]
    ensures multiset(Added(Without(s, t), t)) == multiset(s)
  {
    var i := IndexOf(s, t);
    WithoutIsSplice(s, t);
    SplicedToEnd(s, i);
  }

  /** Moving the element at `i` to the end keeps the same elements. */
  lemma SplicedToEnd<T>(s: seq<T>, i: nat)
    requires i < |s|
    ensures multiset(s[..i] + s[i + 1..] + [s[i]]) == multiset(s)
  {
    assert s == s[..i] + [s[i]] + s[i + 1..];
    calc {
      multiset(s[..i] + s[i + 1..] + [s[i]]);
      multiset(s[..i]) + multiset(s[i + 1..]) + multiset([s[i]]);
      multiset(s[..i] + [s[i]] + s[i + 1..]);
    }
  }

  /** Adding keeps the list duplicate-free. */
  lemma AddedDistinct<T>(s: seq<T>, t: T)
    requires Distinct(s)
    ensures Distinct(Added(s, t))
    ensures t !in s ==> |Added(s, t)| == |s| + 1 && Added(s, t)[|s|] == t
  {
    if t !in s {
      AppendDistinct(s, t);
    }
  }

  /** `moveTrack`: the element at `i` is taken out and put back at index `j` of the rest. */
  function MoveTo<T>(s: seq<T>, i: nat, j: nat): (r: seq<T>)
    requires i < |s| && j < |s|
    ensures |r| == |s|
  {
    var rest := s[..i] + s[i + 1..];
    rest[..j] + [s[i]] + rest[j..]
  }

  /** Where the element at index `k` of `MoveTo(s, i, j)` comes from in `s`. */
  function MoveSource(i: nat, j: nat, k: nat): nat {
    if k == j then i
    else
      var m := if k < j then k else k - 1;  // index in the list without `s[i]`
      if m < i then m else m + 1
  }

  lemma MoveToIndex<T>(s: seq<T>, i: nat, j: nat, k: nat)
    requires i < |s| && j < |s| && k < |s|
    ensures MoveSource(i, j, k) < |s|
    ensures MoveTo(s, i, j)[k] == s[MoveSource(i, j, k)]
  {
    var rest := s[..i] + s[i + 1..];
    var r := rest[..j] + [s[i]] + rest[j..];
    if k < j {
      assert r[k] == rest[k];
    } else if k > j {
      assert r[k] == rest[k - 1];
    }
  }

  /** The moved element lands at index `j`. */
  lemma MoveToLands<T>(s: seq<T>, i: nat, j: nat)
    requires i < |s| && j < |s|
    ensures MoveTo(s, i, j)[j] == s[i]
  {
    MoveToIndex(s, i, j, j);
  }

  /** Moving is a permutation: the same elements, each as often. */
  lemma MoveToPermutation<T>(s: seq<T>, i: nat, j: nat)
    requires i < |s| && j < |s|
    ensures multiset(MoveTo(s, i, j)) == multiset(s)
  {
    var rest := s[..i] + s[i + 1..];
    assert rest[..j] + rest[j..] == rest;
    assert s == s[..i] + [s[i]] + s[i + 1..];
    calc {
      multiset(MoveTo(s, i, j));
      multiset(rest[..j]) + multiset([s[i]]) + multiset(rest[j..]);
      multiset(rest) + multiset([s[i]]);
      multiset(s);
    }
  }

  /** Moving a member of a duplicate-free list keeps it duplicate-free. */
  lemma MoveToDistinct<T>(s: seq<T>, i: nat, j: nat)
    requires Distinct(s) && i < |s| && j < |s|
    ensures Distinct(MoveTo(s, i, j))
  {
    var r := MoveTo(s, i, j);
    forall a, b | 0 <= a < b < |r| ensures r[a] != r[b] {
      MoveToIndex(s, i, j, a);
      MoveToIndex(s, i, j, b);
    }
  }

  /** The other elements keep their relative order: without the moved one, nothing changed. */
  lemma MoveToKeepsOrder<T>(s: seq<T>, i: nat, j: nat)
    requires Distinct(s) && i < |s| && j < |s|
    ensures Without(MoveTo(s, i, j), s[i]) == Without(s, s[i])
  {
    WithoutAt(s, i);
    ReinsertedWithout(s[..i] + s[i + 1..], s[i], j);
  }

  /** In a duplicate-free list, pulling the element at `i` splices out index `i` and nothing else. */
  lemma WithoutAt<T>(s: seq<T>, i: nat)
    requires Distinct(s) && i < |s|
    ensures s[i] !in s[..i] + s[i + 1..]
    ensures Without(s, s[i]) == s[..i] + s[i + 1..]
  {
    var rest := s[..i] + s[i + 1..];
    forall k | 0 <= k < |rest| ensures rest[k] != s[i] {
      if k < i { assert rest[k] == s[k]; } else { assert rest[k] == s[k + 1]; }
    }
    IndexOfDistinct(s, i);
    WithoutIsSplice(s, s[i]);
  }

  /** Putting `x` into a list without `x` and pulling it out again gives back the list. */
  lemma ReinsertedWithout<T>(rest: seq<T>, x: T, j: nat)
    requires x !in rest && j <= |rest|
    ensures Without(rest[..j] + [x] + rest[j..], x) == rest
  {
    var a, b := rest[..j], rest[j..];
    assert a + b == rest;
    assert x !in a && x !in b;
    WithoutInserted(a, x, b);
  }

  /** Pulling `x` out of `a + [x] + b`, where `a` and `b` hold no `x`, gives `a + b`. */
  lemma WithoutInserted<T>(a: seq<T>, x: T, b: seq<T>)
    requires x !in a && x !in b
    ensures Without(a + [x] + b, x) == a + b
  {
    WithoutAppend(a + [x], b, x);
    WithoutAppend(a, [x], x);
    WithoutAbsent(a, x);
    WithoutAbsent(b, x);
    assert Without([x], x) == [];
    assert a + [] == a;
  }

  /** The save records of a list of tracks, in order. */
  function TrackSaves(ts: seq<Track>): (r: seq<TrackSave>)
    ensures |r| == |ts|
    ensures forall i :: 0 <= i < |ts| ==> r[i] == TrackSave(ts[i].kind, ts[i].GetSave())
  {
    seq(|ts|, i requires 0 <= i < |ts| => TrackSave(ts[i].kind, ts[i].GetSave()))
  }

  /** The magnet times of the tracks whose type defines them, concatenated in track order. */
  function CollectedMagnetPoints(ts: seq<Track>): seq<real> {
    if |ts| == 0 then []
    else
      var last := ts[|ts| - 1];
      CollectedMagnetPoints(ts[..|ts| - 1]) + (if last.cls.definesMagnetPoints then last.GetMagnetPoints() else [])
  }

  /** The track's type defines magnet points and `x` is one of them. */
  predicate HasMagnetPoint(t: Track, x: real) {
    t.cls.definesMagnetPoints && x in t.GetMagnetPoints()
  }

  /** A time is collected exactly when some track whose type defines magnet points has it. */
  lemma {:induction false} CollectedMagnetPointsFrom(ts: seq<Track>, x: real)
    ensures x in CollectedMagnetPoints(ts) <==> exists i :: 0 <= i < |ts| && HasMagnetPoint(ts[i], x)
  {
    if |ts| > 0 {
      var n := |ts|;
      var init := ts[..n - 1];
      var last := ts[n - 1];
      var tail := if last.cls.definesMagnetPoints then last.GetMagnetPoints() else [];
      assert CollectedMagnetPoints(ts) == CollectedMagnetPoints(init) + tail;
      assert x in tail <==> HasMagnetPoint(last, x);
      CollectedMagnetPointsFrom(init, x);
      if x in CollectedMagnetPoints(init) {
        var i :| 0 <= i < n - 1 && HasMagnetPoint(init[i], x);
        assert ts[i] == init[i];
      }
      if exists i :: 0 <= i < n && HasMagnetPoint(ts[i], x) {
        var i :| 0 <= i < n && HasMagnetPoint(ts[i], x);
        if i < n - 1 {
          assert init[i] == ts[i];
        }
      }
    }
  }

  /**
   * The timebar's magnet points after `_refreshMagnetPoints`: each time some
   * magnet-defining track has, once.
   */
  lemma MagnetPointsOfTracks(ts: seq<Track>, x: real)
    ensures Distinct(Uniq(CollectedMagnetPoints(ts)))
    ensures x in Uniq(CollectedMagnetPoints(ts)) <==> exists i :: 0 <= i < |ts| && HasMagnetPoint(ts[i], x)
  {
    var c := CollectedMagnetPoints(ts);
    CollectedMagnetPointsFrom(ts, x);
    if x in c {
      var k :| 0 <= k < |c| && c[k] == x;
      assert c[k] in Uniq(c);
    }
    if x in Uniq(c) {
      var k :| 0 <= k < |Uniq(c)| && Uniq(c)[k] == x;
      assert Uniq(c)[k] in c;
    }
  }

  /** The player scripts of the tracks, in track order. */
  function Scripts(ts: seq<Track>): (r: seq<string>)
    ensures |r| == |ts|
    ensures forall i :: 0 <= i < |ts| ==> r[i] == ts[i].GetScript()
  {
    seq(|ts|, i requires 0 <= i < |ts| => ts[i].GetScript())
  }

  /** The history entries `clear` records: one removal per track, in list order. */
  function RemovalLog(ts: seq<Track>): (r: seq<Intent>)
    ensures |r| == |ts|
    ensures forall i :: 0 <= i < |ts| ==> r[i] == Intent(AddAction(ts[i]), RemoveAction(ts[i]), "remove track")
  {
    seq(|ts|, i requires 0 <= i < |ts| => Intent(AddAction(ts[i]), RemoveAction(ts[i]), "remove track"))
  }

  lemma RemovalLogAppend(a: seq<Track>, b: seq<Track>)
    ensures RemovalLog(a + b) == RemovalLog(a) + RemovalLog(b)
  {
  }

  /** `useSave` gets through a save: every track type is registered and the current-track index names a track. */
  predicate Loadable(save: Save, registry: map<string, TrackClass>) {
    (forall i :: 0 <= i < |save.tracks| ==> save.tracks[i].kind in registry)
    && (save.currTrackIdx.Some? ==> 0 <= save.currTrackIdx.value < |save.tracks|)
  }

  /** `(time + start) * timescale`. */
  function RenderPos(time: real, start: real, timescale: real): real {
    (time + start) * timescale
  }

  class Timeline {
    var tracks: seq<Track>
    var currTrack: Track?
    var isPlaying: bool
    var playStartTimeStamp: real
    var playStartCurrTime: real
    var timebar: Timebar
    var easeMap: string
    var triggerMap: string
    /** `am.history`, as the list of intents saved into it. */
    var history: seq<Intent>

    /** No track is listed twice. */
    ghost predicate Valid()
      reads this
    {
      Distinct(tracks)
    }

    /**
     * A new timeline: no tracks, not playing, timescale 0.12 and length 6000.
     * `easeMap` and `triggerMap` are the saves of fresh easing and trigger maps.
     */
    constructor (easeMap: string, triggerMap: string)
      ensures Valid()
      ensures tracks == [] && currTrack == null && !isPlaying && history == []
      ensures timebar.timescale == 0.12 && timebar.length == 6000.0
      ensures this.easeMap == easeMap && this.triggerMap == triggerMap
    {
      tracks := [];
      currTrack := null;
      isPlaying := false;
      playStartTimeStamp := 0.0;
      playStartCurrTime := 0.0;
      timebar := Timebar(0.0, 0.12, 6000.0, 0.0, []);
      this.easeMap := easeMap;
      this.triggerMap := triggerMap;
      history := [];
    }

    /**
     * `addTrack`: a listed track changes nothing; otherwise the intent pair
     * (undo = remove, redo = add) is recorded, the track is appended and its
     * parent set.
     */
    method AddTrack(track: Track)
      requires Valid()
      modifies this`tracks, this`history, track`parentTimeline
      ensures Valid()
      ensures tracks == Added(old(tracks), track)
      ensures track in old(tracks) ==> history == old(history) && track.parentTimeline == old(track.parentTimeline)
      ensures track !in old(tracks) ==>
        history == old(history) + [Intent(RemoveAction(track), AddAction(track), "add track")]
        && track.parentTimeline == this
    {
      if track in tracks {
        return;
      }
      history := history + [Intent(RemoveAction(track), AddAction(track), "add track")];
      AppendDistinct(tracks, track);
      tracks := tracks + [track];
      track.parentTimeline := this;
    }

    /**
     * `removeTrack`: an unlisted track changes nothing; otherwise the inverse
     * intent pair is recorded, the parent cleared and the track pulled out.
     * The current track is left as it was, even when it is the one removed.
     */
    method RemoveTrack(track: Track)
      requires Valid()
      modifies this`tracks, this`history, track`parentTimeline
      ensures Valid()
      ensures tracks == Without(old(tracks), track)
      ensures track in old(tracks) ==>
        var i := IndexOf(old(tracks), track);
        tracks == old(tracks)[..i] + old(tracks)[i + 1..]
      ensures track !in old(tracks) ==> history == old(history) && track.parentTimeline == old(track.parentTimeline)
      ensures track in old(tracks) ==>
        history == old(history) + [Intent(AddAction(track), RemoveAction(track), "remove track")]
        && track.parentTimeline == null
    {
      if track !in tracks {
        WithoutAbsent(tracks, track);
        return;
      }
      history := history + [Intent(AddAction(track), RemoveAction(track), "remove track")];
      track.parentTimeline := null;
      WithoutIsSplice(tracks, track);
      WithoutDistinct(tracks, track);
      tracks := Without(tracks, track);
    }

    /** Replays one side of a history entry. */
    method Perform(action: TrackAction)
      requires Valid()
      modifies this`tracks, this`history, action.track`parentTimeline
      ensures Valid()
      ensures action.AddAction? ==> tracks == Added(old(tracks), action.track)
      ensures action.RemoveAction? ==> tracks == Without(old(tracks), action.track)
      ensures action.AddAction? && action.track in old(tracks) ==>
        history == old(history) && action.track.parentTimeline == old(action.track.parentTimeline)
      ensures action.AddAction? && action.track !in old(tracks) ==>
        history == old(history) + [Intent(RemoveAction(action.track), AddAction(action.track), "add track")]
        && action.track.parentTimeline == this
      ensures action.RemoveAction? && action.track !in old(tracks) ==>
        history == old(history) && action.track.parentTimeline == old(action.track.parentTimeline)
      ensures action.RemoveAction? && action.track in old(tracks) ==>
        history == old(history) + [Intent(AddAction(action.track), RemoveAction(action.track), "remove track")]
        && action.track.parentTimeline == null
    {
      match action
      case AddAction(t) => AddTrack(t);
      case RemoveAction(t) => RemoveTrack(t);
    }

    /**
     * `moveTrack`: the track is spliced out and reinserted `way` places on,
     * the index clamped to the shortened list.
     */
    method MoveTrack(track: Track, way: int)
      requires Valid() && track in tracks
      modifies this`tracks
      ensures Valid()
      ensures
        var i := IndexOf(old(tracks), track);
        tracks == MoveTo(old(tracks), i, Clamp(i + way, 0, |old(tracks)| - 1))
    {
      var idx := IndexOf(tracks, track);
      var rest := tracks[..idx] + tracks[idx + 1..];
      idx := Clamp(idx + way, 0, |rest|);
      MoveToDistinct(tracks, IndexOf(tracks, track), idx);
      tracks := rest[..idx] + [track] + rest[idx..];
    }

    /** `clear`: removes the first track until none is left. */
    method Clear()
      requires Valid()
      modifies this`tracks, this`history, tracks`parentTimeline
      ensures Valid()
      ensures tracks == []
      ensures history == old(history) + RemovalLog(old(tracks))
      ensures forall i :: 0 <= i < |old(tracks)| ==> old(tracks)[i].parentTimeline == null
    {
      ghost var k := 0;
      while |tracks| > 0
        invariant Valid()
        invariant 0 <= k <= |old(tracks)| && tracks == old(tracks)[k..]
        invariant history == old(history) + RemovalLog(old(tracks)[..k])
        invariant forall i :: 0 <= i < k ==> old(tracks)[i].parentTimeline == null
        decreases |tracks|
      {
        var first := RemoveFirst();
        assert old(tracks)[..k + 1] == old(tracks)[..k] + [first];
        RemovalLogAppend(old(tracks)[..k], [first]);
        k := k + 1;
      }
      assert old(tracks)[..k] == old(tracks);
    }

    /** `removeTrack(this._tracks[0])`: one step of `clear`. */
    method RemoveFirst() returns (first: Track)
      requires Valid() && |tracks| > 0
      modifies this`tracks, this`history, {tracks[0]}`parentTimeline
      ensures Valid()
      ensures first == old(tracks)[0] && tracks == old(tracks)[1..]
      ensures history == old(history) + RemovalLog([first]) && first.parentTimeline == null
    {
      first := tracks[0];
      IndexOfDistinct(tracks, 0);
      RemoveTrack(first);
    }

    /**
     * `getSave`: the timebar fields, every track's type and save in list
     * order, the two map saves, and the index of the current track. The index
     * is written only when the current track is in the list (see
     * SaveAsWritten for the source's own test).
     */
    function GetSave(): (s: Save)
      reads this
      ensures s.timebar == TimebarSave(timebar.currTime, timebar.timescale, timebar.length)
      ensures |s.tracks| == |tracks|
      ensures forall i :: 0 <= i < |tracks| ==> s.tracks[i] == TrackSave(tracks[i].kind, tracks[i].data)
      ensures s.currTrackIdx.Some? <==> currTrack != null && currTrack in tracks
      ensures s.currTrackIdx.Some? ==> 0 <= s.currTrackIdx.value < |tracks| && tracks[s.currTrackIdx.value] == currTrack
      ensures s.easeMap == Some(easeMap) && s.triggerMap == Some(triggerMap)
    {
      Save(
        TimebarSave(timebar.currTime, timebar.timescale, timebar.length),
        TrackSaves(tracks),
        Some(easeMap),
        Some(triggerMap),
        if currTrack != null && currTrack in tracks then Some(IndexOf(tracks, currTrack)) else None)
    }

    /**
     * `getSave` as written: the index is written whenever a track is current,
     * so a current track that was removed is saved as index -1.
     */
    function SaveAsWritten(): (s: Save)
      reads this
      ensures s.currTrackIdx.Some? <==> currTrack != null
      ensures currTrack != null && currTrack !in tracks ==> s.currTrackIdx == Some(-1)
      ensures currTrack == null || currTrack in tracks ==> s == GetSave()
    {
      GetSave().(currTrackIdx := if currTrack != null then Some(IndexOf(tracks, currTrack)) else None)
    }

    /** The corrected save always loads back when every track type is registered. */
    lemma SaveLoadable(registry: map<string, TrackClass>)
      requires forall i :: 0 <= i < |tracks| ==> tracks[i].kind in registry
      ensures Loadable(GetSave(), registry)
    {
    }

    /**
     * The save as written, taken while the current track is no longer listed,
     * carries index -1 and cannot be loaded back.
     */
    lemma StaleSaveNotLoadable(registry: map<string, TrackClass>)
      requires currTrack != null && currTrack !in tracks
      ensures SaveAsWritten().currTrackIdx == Some(-1)
      ensures !Loadable(SaveAsWritten(), registry)
    {
    }

    /**
     * `useSave`: clears the list, copies the timebar fields and the maps that
     * are present, builds and adds one track per saved entry through the
     * registry, refreshes the magnet points, selects the saved current track
     * and empties the history. An unknown track type or an index with no track
     * stops the load where the source would throw.
     */
    method UseSave(save: Save, registry: map<string, TrackClass>) returns (r: LoadResult)
      requires Valid()
      modifies this`tracks, this`history, this`timebar, this`easeMap, this`triggerMap, this`currTrack
      modifies tracks`parentTimeline, ({currTrack} - {null})`selected
      ensures Valid()
      ensures r.Loaded? <==> Loadable(save, registry)
      ensures timebar.currTime == save.timebar.currTime && timebar.timescale == save.timebar.timescale
        && timebar.length == save.timebar.length && timebar.start == old(timebar.start)
      ensures easeMap == (if save.easeMap.Some? then save.easeMap.value else old(easeMap))
      ensures triggerMap == (if save.triggerMap.Some? then save.triggerMap.value else old(triggerMap))
      ensures |tracks| <= |save.tracks|
      ensures forall i :: 0 <= i < |tracks| ==>
        fresh(tracks[i]) && tracks[i].parentTimeline == this
        && TrackSave(tracks[i].kind, tracks[i].data) == save.tracks[i]
        && save.tracks[i].kind in registry && tracks[i].cls == registry[save.tracks[i].kind]
      ensures r.Failed? ==>
        currTrack == old(currTrack) && history == old(history) + RemovalLog(old(tracks)) + AdditionLog(tracks)
      ensures r.Failed? && r.error.UnknownTrackType? ==>
        |tracks| < |save.tracks| && save.tracks[|tracks|].kind == r.error.kind && r.error.kind !in registry
        && timebar.magnetPoints == old(timebar.magnetPoints)
      ensures r.Failed? && r.error.NoTrackAt? ==>
        |tracks| == |save.tracks| && save.currTrackIdx == Some(r.error.index)
        && timebar.magnetPoints == Uniq(CollectedMagnetPoints(tracks))
      ensures r.Loaded? && save.currTrackIdx.Some? && old(currTrack) != null ==> !old(currTrack).selected
      ensures r.Loaded? ==>
        |tracks| == |save.tracks|
        && (forall i :: 0 <= i < |tracks| ==>
              fresh(tracks[i]) && tracks[i].parentTimeline == this
              && TrackSave(tracks[i].kind, tracks[i].data) == save.tracks[i]
              && tracks[i].cls == registry[save.tracks[i].kind])
        && timebar.currTime == save.timebar.currTime
        && timebar.timescale == save.timebar.timescale
        && timebar.length == save.timebar.length
        && timebar.magnetPoints == Uniq(CollectedMagnetPoints(tracks))
        && easeMap == (if save.easeMap.Some? then save.easeMap.value else old(easeMap))
        && triggerMap == (if save.triggerMap.Some? then save.triggerMap.value else old(triggerMap))
        && currTrack == (if save.currTrackIdx.Some? then tracks[save.currTrackIdx.value] else old(currTrack))
        && history == []
      ensures r.Loaded? && save.easeMap.Some? && save.triggerMap.Some? ==> GetSave() == save
      ensures forall i :: 0 <= i < |old(tracks)| ==> old(tracks)[i].parentTimeline == null
    {
      Reset(save);
      var missing := LoadTracks(save.tracks, registry);
      if missing.Some? {
        r := Failed(UnknownTrackType(missing.value));
        return;
      }
      r := FinishLoad(save);
    }

    /**
     * The start of `useSave`: clears the list, copies the timebar fields and
     * the maps the save carries.
     */
    method Reset(save: Save)
      requires Valid()
      modifies this`tracks, this`history, tracks`parentTimeline, this`timebar, this`easeMap, this`triggerMap
      ensures Valid() && tracks == []
      ensures history == old(history) + RemovalLog(old(tracks))
      ensures timebar == old(timebar).(currTime := save.timebar.currTime, timescale := save.timebar.timescale,
                                       length := save.timebar.length)
      ensures easeMap == (if save.easeMap.Some? then save.easeMap.value else old(easeMap))
      ensures triggerMap == (if save.triggerMap.Some? then save.triggerMap.value else old(triggerMap))
      ensures forall i :: 0 <= i < |old(tracks)| ==> old(tracks)[i].parentTimeline == null
    {
      Clear();
      timebar := timebar.(currTime := save.timebar.currTime, timescale := save.timebar.timescale,
                          length := save.timebar.length);
      if save.easeMap.Some? {
        easeMap := save.easeMap.value;
      }
      if save.triggerMap.Some? {
        triggerMap := save.triggerMap.value;
      }
    }

    /**
     * The end of `useSave`, once the tracks are in: refreshes the magnet
     * points, selects the saved current track and empties the history.
     */
    method FinishLoad(save: Save) returns (r: LoadResult)
      requires Valid() && |tracks| == |save.tracks|
      requires forall i :: 0 <= i < |tracks| ==> TrackSave(tracks[i].kind, tracks[i].data) == save.tracks[i]
      requires currTrack == null || currTrack !in tracks
      requires timebar.currTime == save.timebar.currTime && timebar.timescale == save.timebar.timescale
      requires timebar.length == save.timebar.length
      modifies this`timebar, this`currTrack, this`history, ({currTrack} - {null})`selected
      ensures r.Loaded? <==> (save.currTrackIdx.Some? ==> 0 <= save.currTrackIdx.value < |tracks|)
      ensures r.Failed? ==> r.error == NoTrackAt(save.currTrackIdx.value)
      ensures timebar == old(timebar).(magnetPoints := Uniq(CollectedMagnetPoints(tracks)))
      ensures r.Loaded? ==>
        currTrack == (if save.currTrackIdx.Some? then tracks[save.currTrackIdx.value] else old(currTrack))
        && history == []
      ensures r.Failed? ==> currTrack == old(currTrack) && history == old(history)
      ensures r.Loaded? && save.currTrackIdx.Some? && old(currTrack) != null ==> !old(currTrack).selected
      ensures r.Loaded? && save.easeMap == Some(easeMap) && save.triggerMap == Some(triggerMap) ==> GetSave() == save
    {
      RefreshMagnetPoints();
      if save.currTrackIdx.Some? {
        var idx := save.currTrackIdx.value;
        if !(0 <= idx < |tracks|) {
          r := Failed(NoTrackAt(idx));
          return;
        }
        OnSelectTrack(tracks[idx]);
      }
      history := [];
      r := Loaded;
      if save.easeMap == Some(easeMap) && save.triggerMap == Some(triggerMap) {
        SaveRoundTrip(save);
      }
    }

    /**
     * The `forEach` of `useSave` over the saved tracks, on an empty list: each
     * entry's type is looked up in the registry and a new track of that class
     * is added. Stops at the first unknown type, which it reports.
     */
    method LoadTracks(entries: seq<TrackSave>, registry: map<string, TrackClass>) returns (missing: Option<string>)
      requires Valid() && tracks == []
      modifies this`tracks, this`history
      ensures Valid()
      ensures missing.None? <==> forall i :: 0 <= i < |entries| ==> entries[i].kind in registry
      ensures missing.Some? ==> missing.value !in registry
      ensures missing.Some? ==>
        exists k :: 0 <= k < |entries| && entries[k].kind == missing.value
          && forall j :: 0 <= j < k ==> entries[j].kind in registry
      ensures |tracks| <= |entries|
      ensures forall i :: 0 <= i < |tracks| ==>
        fresh(tracks[i]) && tracks[i].parentTimeline == this
        && TrackSave(tracks[i].kind, tracks[i].data) == entries[i]
        && entries[i].kind in registry && tracks[i].cls == registry[entries[i].kind]
      ensures missing.Some? ==> |tracks| < |entries| && entries[|tracks|].kind == missing.value
      ensures missing.None? ==>
        |tracks| == |entries|
        && (forall i :: 0 <= i < |tracks| ==>
              fresh(tracks[i]) && tracks[i].parentTimeline == this
              && TrackSave(tracks[i].kind, tracks[i].data) == entries[i]
              && tracks[i].cls == registry[entries[i].kind])
      ensures history == old(history) + AdditionLog(tracks)
    {
      var i := 0;
      while i < |entries|
        invariant Valid()
        invariant 0 <= i <= |entries| && |tracks| == i
        invariant forall j :: 0 <= j < i ==> entries[j].kind in registry
        invariant forall j :: 0 <= j < i ==>
          fresh(tracks[j]) && tracks[j].parentTimeline == this
          && TrackSave(tracks[j].kind, tracks[j].data) == entries[j]
          && tracks[j].cls == registry[entries[j].kind]
        invariant history == old(history) + AdditionLog(tracks)
      {
        var entry := entries[i];
        if entry.kind !in registry {
          assert entries[i].kind == entry.kind;
          return Some(entry.kind);
        }
        var track := AddNewTrack(entry.kind, registry[entry.kind], entry.data);
        i := i + 1;
      }
      return None;
    }

    /** `addTrack(new TrackClass(data, this))`: one step of the load loop. */
    method AddNewTrack(kind: string, cls: TrackClass, data: string) returns (track: Track)
      requires Valid()
      modifies this`tracks, this`history
      ensures Valid()
      ensures fresh(track) && tracks == old(tracks) + [track]
      ensures track.kind == kind && track.cls == cls && track.data == data && track.parentTimeline == this
      ensures AdditionLog(tracks) == AdditionLog(old(tracks)) + AdditionLog([track])
      ensures history == old(history) + AdditionLog([track])
    {
      track := new Track(kind, cls, data);
      AddTrack(track);
    }

    /**
     * A loaded document saves back as the record it was loaded from, when
     * the record carried both map saves.
     */
    lemma SaveRoundTrip(save: Save)
      requires Valid() && |tracks| == |save.tracks|
      requires forall i :: 0 <= i < |tracks| ==> TrackSave(tracks[i].kind, tracks[i].data) == save.tracks[i]
      requires timebar.currTime == save.timebar.currTime && timebar.timescale == save.timebar.timescale
      requires timebar.length == save.timebar.length
      requires save.easeMap == Some(easeMap) && save.triggerMap == Some(triggerMap)
      requires save.currTrackIdx.Some? ==>
        0 <= save.currTrackIdx.value < |tracks| && currTrack == tracks[save.currTrackIdx.value]
      requires save.currTrackIdx.None? ==> currTrack == null || currTrack !in tracks
      ensures GetSave() == save
    {
      var s := GetSave();
      assert s.tracks == save.tracks;
      if save.currTrackIdx.Some? {
        IndexOfDistinct(tracks, save.currTrackIdx.value);
      }
    }

    /** `getScript`: the track player scripts joined with `",\n"`, beside the trigger script. */
    method GetScript(triggerScript: string) returns (parts: ScriptParts)
      ensures parts.trackPlayerGens == Join(Scripts(tracks), ",\n")
      ensures parts.triggerScript == triggerScript
    {
      var playerScripts: seq<string> := [];
      var i := 0;
      while i < |tracks|
        invariant 0 <= i <= |tracks|
        invariant playerScripts == Scripts(tracks[..i])
      {
        playerScripts := playerScripts + [tracks[i].GetScript()];
        i := i + 1;
      }
      assert tracks[..i] == tracks;
      parts := ScriptParts(Join(playerScripts, ",\n"), triggerScript);
    }

    /**
     * `_refreshMagnetPoints`: the magnet times of every track whose type
     * defines them, concatenated in order and deduplicated.
     */
    method RefreshMagnetPoints()
      modifies this`timebar
      ensures timebar == old(timebar).(magnetPoints := Uniq(CollectedMagnetPoints(tracks)))
    {
      var magnetPoints: seq<real> := [];
      var i := 0;
      while i < |tracks|
        invariant 0 <= i <= |tracks|
        invariant timebar == old(timebar)
        invariant magnetPoints == CollectedMagnetPoints(tracks[..i])
      {
        var track := tracks[i];
        if track.cls.definesMagnetPoints {
          magnetPoints := magnetPoints + track.GetMagnetPoints();
        }
        assert tracks[..i + 1][..i] == tracks[..i];
        i := i + 1;
      }
      assert tracks[..i] == tracks;
      timebar := timebar.(magnetPoints := Uniq(magnetPoints));
    }

    /**
     * `play`: when not already playing, remembers the time stamp `now` and the
     * current time, then runs the first animation frame.
     */
    method Play(now: real)
      requires timebar.length > 0.0
      modifies this`isPlaying, this`playStartTimeStamp, this`playStartCurrTime, this`timebar
      ensures old(isPlaying) ==>
        isPlaying && playStartTimeStamp == old(playStartTimeStamp)
        && playStartCurrTime == old(playStartCurrTime) && timebar == old(timebar)
      ensures !old(isPlaying) ==>
        isPlaying && playStartTimeStamp == now && playStartCurrTime == old(timebar.currTime)
        && timebar == old(timebar).(currTime := JsRem(old(timebar.currTime), old(timebar.length)))
    {
      if isPlaying {
        return;
      }
      isPlaying := true;
      playStartTimeStamp := now;
      playStartCurrTime := timebar.currTime;
      AnimPlay(now);
      assert JsRound(now - playStartTimeStamp) == 0;
    }

    /** `pause`: stops playing; a no-op when not playing. */
    method Pause()
      modifies this`isPlaying
      ensures !isPlaying
    {
      if !isPlaying {
        return;
      }
      isPlaying := false;
    }

    /**
     * `_animPlay` at time stamp `now`: the current time runs on from where
     * play started by the rounded elapsed milliseconds, wrapped modulo the
     * length.
     */
    method AnimPlay(now: real)
      requires isPlaying && timebar.length > 0.0
      modifies this`timebar
      ensures timebar == old(timebar).(currTime := JsRem(playStartCurrTime + JsRound(now - playStartTimeStamp) as real, old(timebar).length))
      ensures 0.0 <= playStartCurrTime + JsRound(now - playStartTimeStamp) as real ==> 0.0 <= timebar.currTime < timebar.length
    {
      var t := JsRound(now - playStartTimeStamp);
      timebar := timebar.(currTime := JsRem(playStartCurrTime + t as real, timebar.length));
    }

    /**
     * `_onSelectTrack`: selecting the current track again changes nothing;
     * otherwise the previous current track is deselected and the selected
     * one becomes current, so one track at most is current.
     */
    method OnSelectTrack(track: Track)
      modifies this`currTrack, ({currTrack} - {null})`selected
      ensures currTrack == track
      ensures old(currTrack) != null && old(currTrack) != track ==> !old(currTrack).selected
      ensures old(currTrack) == track ==> track.selected == old(track.selected)
    {
      if currTrack == track {
        return;
      }
      if currTrack != null {
        currTrack.Deselect();
      }
      currTrack := track;
    }

    /** `timeToRenderPos`. */
    function TimeToRenderPos(time: real): (pos: real)
      reads this
      ensures timebar.timescale > 0.0 ==> (pos < 0.0 <==> time < -timebar.start)
    {
      RenderPosSign(time, timebar.start, timebar.timescale);
      RenderPos(time, timebar.start, timebar.timescale)
    }
  }

  /**
   * A track is added, selected and removed again: `removeTrack` leaves it
   * current, so the save as written records index -1, which `useSave`
   * cannot load; the corrected save records no index and loads.
   */
  method StaleCurrentTrack(registry: map<string, TrackClass>) returns (asWritten: Save, corrected: Save)
    ensures asWritten.currTrackIdx == Some(-1) && !Loadable(asWritten, registry)
    ensures corrected.currTrackIdx == None && Loadable(corrected, registry)
  {
    var timeline := new Timeline("", "");
    var track := new Track("", TrackClass(false, _ => [], _ => ""), "");
    timeline.AddTrack(track);
    timeline.OnSelectTrack(track);
    timeline.RemoveTrack(track);
    asWritten := timeline.SaveAsWritten();
    corrected := timeline.GetSave();
  }

  /** The history entries a run of `addTrack` calls records, one per added track. */
  function AdditionLog(ts: seq<Track>): (r: seq<Intent>)
    ensures |r| == |ts|
    ensures forall i :: 0 <= i < |ts| ==> r[i] == Intent(RemoveAction(ts[i]), AddAction(ts[i]), "add track")
  {
    seq(|ts|, i requires 0 <= i < |ts| => Intent(RemoveAction(ts[i]), AddAction(ts[i]), "add track"))
  }

  lemma RenderPosSign(time: real, start: real, timescale: real)
    ensures timescale > 0.0 ==> (RenderPos(time, start, timescale) < 0.0 <==> time < -start)
  {
    if timescale > 0.0 {
      MulMonotone(time + start, 0.0, timescale);
      MulMonotone(0.0, time + start, timescale);
    }
  }
}
