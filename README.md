# Timeline document model and compiled player, in Dafny

This project models two parts of the animation editor:

- **The timeline document** (`src/editor/timeline/Timeline.js`):
  - an ordered list of track handles, the current track and the play state;
  - the time base kept by the timebar, and an undo history of track intents;
  - the track-list operations (`addTrack`, `removeTrack`, `moveTrack`, `clear`);
  - saving and loading the document (`getSave`, `useSave`);
  - the magnet-point union, the playback tick and track selection;
  - the script fragment join, the time-to-position mapping;
  - the `min:ss.mmm` current-time read-out.
- **The compiled playback module** (`demos/zomb1/zomb1.am.js`):
  - one player generator per track;
  - each generator builds its animation jobs in a nested loop and keeps a play/pause/seek state machine over a controller it binds lazily;
  - `createPlayer` instantiates every generator and fans each call out to all of the players.

Files:

- `seqs.dfy` (module `Seqs`): the JavaScript array and lodash calls the timeline uses, with their properties. These are `indexOf`, `_.pull`, `_.uniq`, `join` and the `Math.min`/`Math.max` clamp.
- `jsnumbers.dfy` (module `JsNumbers`): JavaScript number semantics on exact reals and integers. These are truncation, `%` (the sign of the dividend), `Math.round`, `~~x` (ToInt32), `String(n)` and `substr(-k)`.
- `curr_time_label.dfy` (module `CurrTimeLabel`): `_refreshDeCurrTime` and the read-out it produces.
- `timelines.dfy` (module `Timelines`): the `Track` and `Timeline` classes.
- `compiled_player.dfy` (module `CompiledPlayer`): the generators, the track players and the aggregate player.

How the model is built:

- Objects the source updates in place are classes: the timeline, the tracks, the track players, the aggregate player and the controllers.
- Their operations are methods with `modifies` frames. Each method is specified against pure functions, and lemmas state what those functions promise.
- Times are exact reals. `performance.now()` is a parameter `now`, and `document.querySelectorAll` is a function parameter.
- The track registry `am.trackTypes` is a map from type tag to `TrackClass`. A `TrackClass` gives a track type's magnet times and player script as functions of the track's save data.

## Model

| member | source | states |
|---|---|---|
| Seqs.IndexOf | src/editor/timeline/Timeline.js:199-202 | `indexOf` is -1 exactly when the element is absent; otherwise it is the first index holding it |
| Seqs.WithoutIsSplice | src/editor/timeline/Timeline.js:291 | in a duplicate-free list, `_.pull` removes exactly the index holding the element and keeps the others in order; the length drops by one |
| Seqs.WithoutMultiset | src/editor/timeline/Timeline.js:291 | `_.pull` drops every occurrence of the element and nothing else |
| Seqs.WithoutDistinct | src/editor/timeline/Timeline.js:291 | pulling keeps a list duplicate-free |
| Seqs.Uniq | src/editor/timeline/Timeline.js:522 | `_.uniq` returns a duplicate-free list holding exactly the input's elements |
| Seqs.UniqFirstOccurrenceOrder | src/editor/timeline/Timeline.js:522 | `_.uniq` keeps first-occurrence order |
| Seqs.Clamp | src/editor/timeline/Timeline.js:310 | the clamped index lies in `[lo, hi]`: it is the index itself when that is already in range, `lo` below the range and `hi` above it |
| Seqs.JoinLength | src/editor/timeline/Timeline.js:222 | the joined string is every part plus one separator between neighbours |
| Seqs.JoinPartAt | src/editor/timeline/Timeline.js:222 | each fragment stands unchanged at its offset in the joined script |
| Seqs.JoinSeparatorAt | src/editor/timeline/Timeline.js:222 | exactly the `",\n"` separator stands between neighbouring fragments |
| JsNumbers.Trunc | src/editor/timeline/Timeline.js:558-562 | truncation toward zero lies within one unit of its argument, on the side of zero |
| JsNumbers.JsRem | src/editor/timeline/Timeline.js:368 | `x % y` for `0 <= x` and `0 < y` lies in `[0, y)` and is `x` when `x < y` |
| JsNumbers.JsRemPeriodic | src/editor/timeline/Timeline.js:368 | adding one period to the dividend leaves `%` unchanged |
| JsNumbers.ToInt32 | src/editor/timeline/Timeline.js:558-562 | `~~x` lies in the signed 32-bit range and equals the truncation when that fits |
| JsNumbers.Digits | src/editor/timeline/Timeline.js:565 | `String(n)` has at least one digit, and exactly one when `n < 10` |
| JsNumbers.DigitsRoundTrip | src/editor/timeline/Timeline.js:565 | reading back the decimal digits of `n` gives `n` |
| JsNumbers.TakeLast | src/editor/timeline/Timeline.js:566 | `s.substr(-k)` is the last `k` characters, or all of `s` when it is shorter |
| CurrTimeLabel.OneMinuteLabel | src/editor/timeline/Timeline.js:564-572 | at exactly one minute the zero seconds are still printed as `00`, because `"00"` is truthy: `1:00.000` |
| CurrTimeLabel.LabelRoundTrip | src/editor/timeline/Timeline.js:553-574 | the read-out names the time to the millisecond: parsing it back gives the whole milliseconds |
| CurrTimeLabel.LabelMinutes | src/editor/timeline/Timeline.js:564-572 | from one minute on, the read-out is minutes, `:`, the last two digits of `"00" + sec`, `.`, the last three digits of `"000" + ms` |
| CurrTimeLabel.LabelSeconds | src/editor/timeline/Timeline.js:568-572 | from one second to one minute, the read-out is seconds, `.`, three-digit milliseconds |
| CurrTimeLabel.ReadOutFields | src/editor/timeline/Timeline.js:558-562 | the `~~`, `%` steps yield the minute, second and millisecond fields of the whole milliseconds |
| CurrTimeLabel.LabelByFields | src/editor/timeline/Timeline.js:564-572 | assembling the three fields as the source does gives the read-out |
| CurrTimeLabel.RefreshDeCurrTime | src/editor/timeline/Timeline.js:553-574 | the step-by-step method, on any time in range, produces the read-out of its whole milliseconds |
| Timelines.UndoAdd | src/editor/timeline/Timeline.js:241-247 | undoing an add of a new track (a remove) restores the list |
| Timelines.UndoRemove | src/editor/timeline/Timeline.js:282-291 | undoing a remove (an add) restores the members, but puts the track at the end |
| Timelines.AddedDistinct | src/editor/timeline/Timeline.js:239-247 | adding keeps the list duplicate-free; a new track lands at the end and the length grows by one |
| Timelines.MoveToLands | src/editor/timeline/Timeline.js:305-311 | the moved track lands at the target index |
| Timelines.MoveToPermutation | src/editor/timeline/Timeline.js:305-311 | moving is a permutation of the list |
| Timelines.MoveToDistinct | src/editor/timeline/Timeline.js:305-311 | moving keeps the list duplicate-free |
| Timelines.MoveToKeepsOrder | src/editor/timeline/Timeline.js:305-311 | the other tracks keep their relative order |
| Timelines.MoveToIndex | src/editor/timeline/Timeline.js:305-311 | each index of the moved list holds the element of a named index of the old one |
| Timelines.CollectedMagnetPointsFrom | src/editor/timeline/Timeline.js:514-520 | a time is collected exactly when some track whose type defines magnet points has it |
| Timelines.MagnetPointsOfTracks | src/editor/timeline/Timeline.js:510-525 | the timebar's magnet points are the union over magnet-defining tracks, without duplicates |
| JsNumbers.JsRound | src/editor/timeline/Timeline.js:367 | `Math.round` is the integer nearest to its argument, halves rounded up |
| Timelines.Track.Deselect | src/editor/timeline/Timeline.js:383 | the track is no longer selected |
| Timelines.Timeline.constructor | src/editor/timeline/Timeline.js:39-59 | a new timeline is empty, not playing, with timescale 0.12 and length 6000 |
| Timelines.Timeline.AddTrack | src/editor/timeline/Timeline.js:237-250 | a listed track changes nothing; otherwise the intent pair (undo remove, redo add) is recorded, the track is appended and its parent set |
| Timelines.Timeline.RemoveTrack | src/editor/timeline/Timeline.js:278-291 | an unlisted track changes nothing; otherwise the inverse pair is recorded, exactly that index is spliced out and the parent cleared |
| Timelines.Timeline.Perform | src/editor/timeline/Timeline.js:241-245 | replaying a recorded intent adds or removes its track, with the same history entry and parent link as a direct `addTrack`/`removeTrack` |
| Timelines.Timeline.MoveTrack | src/editor/timeline/Timeline.js:305-314 | the track is taken out and put back at `clamp(idx + way, 0, n - 1)` |
| Timelines.Timeline.Clear | src/editor/timeline/Timeline.js:229-235 | the loop ends with no tracks, one removal intent per track in order, and every old track's parent cleared |
| Timelines.Timeline.RemoveFirst | src/editor/timeline/Timeline.js:233 | one step of `clear` removes the first track |
| Timelines.Timeline.GetSave | src/editor/timeline/Timeline.js:184-211 | the save holds the timebar fields, each track's type and data in order, both map saves, and the current track's index exactly when that track is listed |
| Timelines.Timeline.SaveAsWritten | src/editor/timeline/Timeline.js:199-202 | as written, an index is saved whenever a track is current, and it is -1 when that track is not listed; otherwise the save is the corrected one |
| Timelines.Timeline.StaleSaveNotLoadable | src/editor/timeline/Timeline.js:176-179 | a save taken with an unlisted current track has index -1 and does not load |
| Timelines.Timeline.SaveLoadable | src/editor/timeline/Timeline.js:164-179 | the corrected save loads whenever every track type is registered |
| Timelines.Timeline.UseSave | src/editor/timeline/Timeline.js:148-182 | loading fails exactly on an unknown track type or an index with no track; on success, the save's tracks, timebar fields, maps and current track are restored, the history is empty, the previous current track is deselected when the save names one, and saving again gives back the save when it carries both maps; the play state and `start` are kept; a failed load keeps the current track, holds the tracks built so far, has the timebar fields and maps already copied, and logs every removal and addition |
| Timelines.Timeline.Reset | src/editor/timeline/Timeline.js:150-162 | the start of `useSave` clears the list, logging each removal, and copies the timebar fields and the maps present |
| Timelines.Timeline.LoadTracks | src/editor/timeline/Timeline.js:164-170 | one new track per saved entry, in save order, with the registered class; otherwise the type of the first entry whose type is not registered, with the tracks of the earlier entries already built |
| Timelines.Timeline.AddNewTrack | src/editor/timeline/Timeline.js:166-169 | a newly built track is appended with its type, class and data |
| Timelines.Timeline.FinishLoad | src/editor/timeline/Timeline.js:172-181 | the magnet points are refreshed, the saved current track is selected (deselecting the previous one) and the history is emptied; a failed load keeps the current track and the history |
| Timelines.Timeline.SaveRoundTrip | src/editor/timeline/Timeline.js:184-211 | a document loaded from a save with both map saves saves back as that record |
| Timelines.Timeline.GetScript | src/editor/timeline/Timeline.js:213-227 | the player fragments of the tracks, in order, joined with `",\n"`, beside the trigger script |
| Timelines.Timeline.RefreshMagnetPoints | src/editor/timeline/Timeline.js:510-525 | the timebar's magnet points become the deduplicated concatenation over the tracks that define them |
| Timelines.Timeline.Play | src/editor/timeline/Timeline.js:316-328 | playing again is a no-op; otherwise the start stamp and start time are recorded and the first tick wraps the current time |
| Timelines.Timeline.Pause | src/editor/timeline/Timeline.js:330-340 | afterwards the timeline is not playing |
| Timelines.Timeline.AnimPlay | src/editor/timeline/Timeline.js:363-369 | a tick sets the time to the start time plus the rounded elapsed time, modulo the length, which lies in `[0, length)` |
| Timelines.Timeline.OnSelectTrack | src/editor/timeline/Timeline.js:376-389 | the selected track becomes current; a different previous current track is deselected, and reselecting the current track changes nothing |
| Timelines.Timeline.TimeToRenderPos | src/editor/timeline/Timeline.js:347-350 | with a positive timescale, the position is negative exactly for times before `-start` |
| Timelines.StaleCurrentTrack | src/editor/timeline/Timeline.js:199-202 | add, select and remove a track: the save as written holds index -1 and does not load; the corrected save loads |
| CompiledPlayer.JobGridLength | demos/zomb1/zomb1.am.js:17-22 | the job list holds one job per (element, parameter) pair |
| CompiledPlayer.JobGridAt | demos/zomb1/zomb1.am.js:17-22 | the job for element `i` and parameter `j` is at index `i * |paramKeys| + j` (element-major order) |
| CompiledPlayer.BuildJobs | demos/zomb1/zomb1.am.js:17-24 | the nested loop builds exactly the element-major job grid |
| CompiledPlayer.Controller.constructor | demos/zomb1/zomb1.am.js:32 | a newly bound controller runs its animation group from time 0 |
| CompiledPlayer.Apply | demos/zomb1/zomb1.am.js:28-54 | `play` binds or resumes; `pause` and `seek` do nothing without a controller; `pause` pauses; `seek` sets the time and keeps the paused state |
| CompiledPlayer.UnboundUntilPlay | demos/zomb1/zomb1.am.js:28-54 | after any run of calls, a controller exists exactly when a `play` was among them |
| CompiledPlayer.BoundStaysBound | demos/zomb1/zomb1.am.js:28-38 | once bound, a player stays bound |
| CompiledPlayer.TrackPlayer.Play | demos/zomb1/zomb1.am.js:28-38 | the first `play` binds a fresh controller and sets `isInited`; later ones resume the same controller |
| CompiledPlayer.TrackPlayer.Pause | demos/zomb1/zomb1.am.js:39-46 | a no-op before binding; afterwards the controller is paused |
| CompiledPlayer.TrackPlayer.Seek | demos/zomb1/zomb1.am.js:47-54 | a no-op before binding; afterwards the time is set and the paused state kept |
| CompiledPlayer.TrackPlayer.Invoke | demos/zomb1/zomb1.am.js:382 | calling a player by method name has that method's effect |
| CompiledPlayer.CreateTrackPlayer | demos/zomb1/zomb1.am.js:7-27 | a generator run gives an unbound player over the job grid of its selected elements |
| CompiledPlayer.Player.CreatePlayer | demos/zomb1/zomb1.am.js:363-370 | every generator is run once, in order; one unbound player per generator |
| CompiledPlayer.Player.CallPlayers | demos/zomb1/zomb1.am.js:378-384 | the same call, with the same argument, reaches every player |
| CompiledPlayer.Player.Play | demos/zomb1/zomb1.am.js:373 | `play` on the aggregate plays every player |
| CompiledPlayer.Player.Pause | demos/zomb1/zomb1.am.js:374 | `pause` on the aggregate pauses every player |
| CompiledPlayer.Player.Seek | demos/zomb1/zomb1.am.js:375 | `seek(t)` on the aggregate seeks every player to `t` |

## Left out

- DOM, canvas and layout work is not modelled: `_createBase`, the pointer line, track ordering and heights, the timebar width, `timeToScreenX`, and the edit-time input handlers. It has nothing to state beyond layout.
- `requestAnimationFrame` and `performance.now()` are not modelled. The tick takes the time stamp `now` as a parameter, and rescheduling is not modelled.
- The `eventman` wiring is left out. This covers `track.on`/`off`, the `select` event that reaches `_onSelectTrack`, and `am.setCurrTrack`.
- The tracks' own `wake`, `sleep`, `play`, `pause`, `renderTime` and `select` are left out. Track classes are not part of this model. A track's save is the data it was built from, and its magnet times and script are functions of that data.
- Timelines.Timeline.MoveTrack requires the track to be listed. For a track that is not listed, `indexOf` gives -1, `splice(-1, 1)` drops the last track and the foreign track is then inserted (src/editor/timeline/Timeline.js:305-311). That case is not modelled, because the only caller, `_onMoveTrack`, is bound to a track's `move` event only while the track is listed (src/editor/timeline/Timeline.js:262, 301).
- The `_mapTrackDatas` bookkeeping in `addTrack`/`removeTrack` is not modelled.
- The `getScript` Mustache rendering is left out, because the template is not part of this model. The result is the pair of values handed to it.
- The easing and trigger maps are opaque save strings. `useSave` replaces a map's save when the record carries one.
- Timebar.js is not part of this model. Setting `currTime`, `timescale` and `length` stores the values unchanged, with no clamping, and `start` starts at 0.
- A save without a `timebar` record is not modelled: loading one would store `undefined` in the timebar fields.
- Floating point is modelled as exact reals, and NaN and infinities are left out.
  - Timelines.Timeline.Play and Timelines.Timeline.AnimPlay require a positive length, because `x % 0` is NaN.
  - CurrTimeLabel.RefreshDeCurrTime states its result only for times in `[0, 2^31 minutes)`. Below zero, the fields take the sign of the time (`~~` and `%` keep it), so -1500 ms reads `-1.500`. From 2^31 minutes on, `~~` wraps the minutes. In both cases the text is still built, but it is no longer `Label`.
- The keyframe compiler behind each generator's constants is not part of this model, and neither are the float offsets it emits. A generator is given as its selector, keyframe lists and options.
- The embedded `SAVEJSON` literal and `saveJson` are left out. They are data, not logic.
- The Web Animations objects are abstract: an animation is the triple it is built from, and a group is the list of its animations.
- CompiledPlayer.Controller.constructor assumes that `document.timeline.play` returns a running controller at time 0.
- Concurrency and the order of side effects across players are not modelled. The fan-out runs in player order, but the players share no state, so the final states do not depend on it.
- The constructor's `opt` argument and the toolbar and inline ease editor it builds are left out.

Behaviour of the code worth knowing:

- Undoing a removal re-adds the track at the end of the list, not at its old index (Timelines.UndoRemove).
- `moveTrack` records no history entry.
- `useSave` reads the tracks under the key `tracks`, while the demo's save JSON uses `sequences`.

## Findings

| source | as written | input that shows it | evidently intended | confidence | as-written member | corrected member |
|---|---|---|---|---|---|---|
| src/editor/timeline/Timeline.js:199-202 | `getSave` writes `currTrackIdx = this._tracks.indexOf(this._currTrack)` whenever a track is current, but `removeTrack` and `clear` never reset `_currTrack` | add a track, select it, remove it, then save: `currTrackIdx` is -1, and `useSave` of that record calls `select()` on `this._tracks[-1]`, which is `undefined` | write the index only when the current track is still listed, so every save loads back | not executed | Timelines.Timeline.SaveAsWritten (with Timelines.StaleCurrentTrack, Timelines.Timeline.StaleSaveNotLoadable) | Timelines.Timeline.GetSave (with Timelines.Timeline.SaveLoadable, Timelines.Timeline.SaveRoundTrip) |
