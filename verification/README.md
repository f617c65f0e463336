# Heavy-equipment path simulator: registry and motion model

The modelled program places excavators ("equipment") on a Leaflet map, lets the operator
click waypoints for each one, and animates each excavator along its own polyline. Behind
the click handlers of `script.js` sits a small state machine: the `equipments` array of
records `{id, points, isMoving, progress}`, handlers that create, extend, start, stop and
delete records, a global stop and a reset, and an animation frame that advances a
record's progress and wraps it back to the start of the path.

The model keeps only that state. Each handler is a pure function from the old sequence of
records to the new one (module `Registry`); one animation frame is an explicit step
function (`Equipments.Tick`, `Registry.TickAt`). Progress is an integer count of
thousandths (`Progress`): the source adds 0.001 per frame and resets to 0 once the value
exceeds 1. Read in exact arithmetic, that counter runs 0, 1, ..., 1000 and then 0 again,
a cycle of 1001 frames; the model adopts this exact reading (see "Floating point" under
"## Left out" for what the source's doubles do instead).
The map's distance function is a parameter `d` over an abstract coordinate `LatLng`
(module `Path`), and the colour picker is module `Palette`.

Facts about `script.js` that shape the model:

- Ids are `equipments.length + 1` and can repeat after a delete; `find`/`findIndex`
  then reach the first record carrying the id (`Registry.IdsCanCollide`).
- `startMove` restarts rather than resumes: it sets progress to 0 and then calls
  `animate()` at once, so a successful start leaves progress at one step (1/1000).
- There is one motion flag, `isMoving`: stop clears it whatever it was, and a stopped
  record keeps its last progress.
- An unknown id throws: `find` yields `undefined` and the handler dereferences it. The
  model makes "some record has this id" a precondition (`Registry.HasId`).

## Model

| member | source | states |
|---|---|---|
| Palette.GetColor | script.js:35-38 | the index is JavaScript's truncating remainder: for every non-negative index the result is the palette entry at `i mod 5`; a result exists exactly when the index is non-negative or a multiple of 5, and is always one of the five colours |
| Palette.GetColorPeriodic | script.js:35-38 | on non-negative indices (the ids the source passes) a colour always exists and the palette repeats with period 5 |
| Path.TotalDistance | script.js:102-106 | the loop over consecutive pairs computes the path length (the reference sum), and 0 for fewer than two points |
| Path.PathLengthAppend | script.js:103-106 | appending a point to an empty path keeps distance 0; appending to a non-empty path adds exactly the distance from the old last point to the new one |
| Path.PathLengthFromStartAgrees | script.js:103-106 | summing the legs from the front gives the same total as summing from the back |
| Path.PathLengthNonNegative | script.js:103-106 | with a non-negative distance function the displayed distance is never negative |
| Path.PathLengthPrefixMonotone | script.js:103-106 | with a non-negative distance function the distance of any prefix of the path is at most the distance of the whole path |
| Progress.Advance | script.js:128-129 | one frame leaves the counter in [0, 1000] and, from an in-range value, moves it one place round the cycle of 1001 values |
| Progress.AdvanceNCycle | script.js:128-129 | n frames from an in-range value land on `(p + n) mod 1001` and stay in [0, 1000] |
| Progress.FullLoopReturnsToStart | script.js:128-129 | from 0, the counter is back at 0 after exactly 1001 frames and at no earlier frame |
| Equipments.Fresh | script.js:43-52 | a new record has the given id, no points, is not moving, has progress 0 and is valid |
| Equipments.Tick | script.js:126-129 | a frame never changes id, points or the motion flag; on a record that is not moving it changes nothing; on a moving one it advances progress one place round the cycle and keeps it in range; validity is preserved |
| Equipments.Halt | script.js:143 | stopping clears the motion flag and keeps id, points and progress |
| Registry.FindIndex | script.js:149 | the result is -1 exactly when no record carries the id, and otherwise the first position that carries it |
| Registry.FindIndexDependsOnIds | script.js:149 | two registries with the same ids position by position give the same search result |
| Registry.Create | script.js:41-53 | exactly one record is appended, with id old length + 1, no points, not moving, progress 0; all earlier records are unchanged; validity is preserved |
| Registry.CreateFindsNewRecord | script.js:42-53 | after a create some record has the new id, and the search reaches the new record exactly when no earlier record already had that id |
| Registry.IdsCanCollide | script.js:42 | create, create, delete id 1, create yields two records that both have id 2 |
| Registry.AddPoint | script.js:88-97 | only the first record with the id changes, and only by appending the point at the end of its points; validity is preserved |
| Registry.AddPointDistance | script.js:92-106 | after an append the displayed distance is 0 if the path was empty and otherwise grows by exactly the new leg |
| Registry.Start | script.js:114-137 | fewer than two points exactly when the start is refused, and then nothing changes; otherwise only the first record with the id changes, to moving with progress one step from 0 whatever its old progress; validity is preserved |
| Registry.TickAt | script.js:126-136 | a frame of one record's loop changes no other record, changes nothing when that record is not moving, advances its progress one place round the cycle when it is, and preserves validity |
| Registry.TicksAt | script.js:126-136 | repeated frames of one record's loop keep the number of records, change no other record, change nothing when that record is not moving, and preserve validity |
| Registry.TicksAtAdvance | script.js:126-136 | n frames of a moving record's loop move its progress as n single steps and touch no other record |
| Registry.StartThenLoop | script.js:114-137 | n frames after a successful start the record is still moving with progress (n + 1) mod 1001, so it is back at 0 after 1000 frames: the motion loops rather than halting at the end of the path |
| Registry.Stop | script.js:141-145 | only the first record with the id changes: its motion flag is cleared and its id, points and progress are kept; validity is preserved |
| Registry.StopIdempotent | script.js:141-145 | the id is still present after a stop, and stopping twice equals stopping once |
| Registry.StopFreezesOnlyItsRecord | script.js:126-145 | after a stop a frame of the stopped record changes nothing, while a frame of another moving record still advances it and leaves the stopped one as it was |
| Registry.StopAll | script.js:160-166 | every record stops moving and keeps its id, points and progress; the number of records is kept; validity is preserved |
| Registry.StopAllIdempotent | script.js:160-164 | the global stop is idempotent, and after it a frame of any record changes nothing |
| Registry.Delete | script.js:148-157 | exactly one record, the first with the id, is removed; the records before and after it keep their relative order; the multiset of records loses exactly that one; every record with another id survives; validity is preserved |
| Registry.DeleteIsRemoveFirst | script.js:148-154 | the splice at the found index equals the reference walk that drops the first record with the id |
| Registry.Reset | script.js:168-179 | the result holds no record, so no id is present |
| Registry.ResetRestartsIds | script.js:168-174 | the next create after a reset gets id 1 again |

## Left out

- Map rendering: tile layers, markers, the polyline, the excavator icon and its HTML, and
  the removal of those layers on delete and reset. The track colour a record's polyline
  gets is `GetColor(id)`; the polyline itself is not modelled.
- The DOM: equipment cards, the dropdown, the status line, the per-card and total
  info text and its two-decimal formatting, and the `alert` shown when a start is
  refused (modelled only as the `TooFewPoints` outcome).
- `currentEquipmentIndex` and the dropdown change handler: selection state for the UI.
- The one-shot map click capture in `addPoint`: only the resulting append is modelled,
  with the clicked coordinate as a parameter.
- Frame scheduling (`requestAnimationFrame`, `cancelAnimationFrame`): one frame is the
  explicit step `TickAt`. The model does not cover the overlapping loops a second start
  creates, nor the loops that keep running on a record after delete or reset (neither
  clears `isMoving`); these are scheduling behaviour.
- The position along the path (`turf.lineString`, `turf.length`, `turf.along`): a foreign
  geodesic library on floats. The guarantee that a moving record has at least two
  points, which that call needs, is the `Valid` invariant every transition preserves.
- Floating point: the source keeps progress in an IEEE-754 double. Adding 0.001 to 0 a
  thousand times gives 1.0000000000000007, which already exceeds 1, so the source wraps
  on the 1000th frame and its loop is 1000 frames long; the integer counter follows the
  exact-arithmetic reading, a 1001-frame loop. The distance `dist` of `updateInfo` is
  likewise summed in doubles, while `PathLength` sums reals; the geodesic formula behind
  `map.distance` is an uninterpreted parameter.
- Progress.FullLoopReturnsToStart: states the exact-arithmetic cycle of 1001 frames from
  0; with the source's double accumulation the value is back at 0 after 1000 frames.
- Registry.StartThenLoop: states that progress is back at 0 1000 frames after a start;
  with the source's doubles it is back at 0 after 999 frames.
- Path.PathLengthFromStartAgrees: an identity of exact addition; the source's double
  additions, taken in a different order, need not agree to the last bit.
