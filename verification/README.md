# A verified model of the adventure-game core

This project models the core of a small top-down adventure game written in
C++ on raylib (`src/main.cpp`). The game keeps every entity of a scene in one
flat table, `objects[100]`. Row 0 is always the player. Each entity has a
name, a position, a facing direction, one sprite per direction, a collision
map, a script, up to ten expression portraits and a `MotionMaster`, which
moves it linearly from a start point to an end point.

The model covers:

- the collision test against collision maps and the all-or-nothing point move;
- the `MotionMaster` controller;
- the per-frame entity update: animation frames and motion;
- sprite and texture selection, foot positions and outlines;
- the z-sorted order and the two picking queries;
- destroy and clone, together with the editor's add, delete and clone row
  operations and the reference ledger those keep;
- the scene file format, with save, load and their round trip;
- the camera-shake decay;
- the console commands `tp`, `dev`, `shake`, `sound`, `move`, `save` and `load`.

Modelling conventions:

- `float` is `real`, and `floorf` is `.Floor`.
- A pointer that may be NULL is `Option`.
- An asset handle carries the path it was acquired by (`Assets.Handle`).
- The external asset cache is four lookup functions (`Assets.AssetCache`).
- The reference counts the cache keeps are a multiset of held paths, the
  scene's ledger (`SceneTable.Scene.held`).
- A balanced ledger, where the held paths are exactly what the live rows own,
  is the invariant that destroy, clone, add, delete and load must keep.
- The binary stream is a sequence of typed tokens, one per `Write*`/`Read*` call.
- core.h is not part of this model. What the core takes from it is passed in
  as parameters:
  - `FRAME_TIME` (positive);
  - `MirrorDirectionVertically`;
  - `DirectionFromVector` composed with `GetDirection`;
  - `Vector2Distance` (non-negative);
  - `ParseCommandFloatArg` and `ParseCommandBoolArg` (returning `None` on failure);
  - the outcome of reading a file.

Modules, one per file, in dependency order: `Wrappers`, `Geometry`, `Assets`,
`Motion`, `Objects`, `Collision`, `Animation`, `ZOrder`, `SceneTable`,
`Codec`, `Camera`, `Game`, `Persistence`, `Console`.

## Model

| member | source | states |
|---|---|---|
| Motion.MoveToPoint | src/main.cpp:40-50 | Equal endpoints change nothing. Otherwise the controller moves from start to end, its arrival time times its speed is the distance, and clock, speed and current point are kept. A progressing controller stays progressing. |
| Motion.Update | src/main.cpp:53-70 | An idle controller is unchanged. A controller still moving afterwards has its clock advanced by one step and stays within the arrival time, with the same segment. A controller that stops had a step passing the arrival time, sits at the end point and is reset to speed 10. |
| Motion.UpdateStaysOnSegment | src/main.cpp:58-63 | While moving, the current point is the lerp of start and end at `motionTime / arrivalTime`, and that fraction lies in (0, 1], so there is no overshoot. |
| Motion.UpdateAdvances | src/main.cpp:58-63 | A step that stays within the arrival time only advances the clock; the segment and speed are kept. |
| Motion.UpdateSnaps | src/main.cpp:64-69 | A step that would pass the arrival time leaves the controller idle at the end point. |
| Motion.IdleStaysIdle | src/main.cpp:55-56 | Once idle, any number of updates leave the controller exactly as it is. |
| Motion.SimulateStillMoving | src/main.cpp:53-70 | While the accumulated steps stay within the arrival time, repeated updates keep moving, with the clock advanced by exactly that many steps. |
| Motion.SimulateArrives | src/main.cpp:53-70 | Once the accumulated steps pass the arrival time, repeated updates leave the controller idle at the end point. |
| Motion.ArrivesAtEnd | src/main.cpp:40-70 | After a move to a different point with a positive speed, at least one frame and enough frames for the clock to pass the arrival time end idle exactly at the target. This includes a move issued when the clock left over from an earlier move is already past the new arrival time: the first Update snaps to the end point. |
| Objects.Truncate | src/main.cpp:421 | CopyString into a buffer of `size` units keeps a prefix of the string: all of it when it is shorter than `size`, and exactly its first `size - 1` units otherwise. |
| Objects.DestroyAsWrittenMissesTail | src/main.cpp:330-339 | Destroy as written releases everything an entity owns except the portraits of the slots past `numExpressions`. |
| Objects.LoadedPortraitOutlivesDestroy | src/main.cpp:330-339 | For an entity with `numExpressions == 0` and a live first portrait, which is what the loader produces, Destroy as written releases that portrait fewer times than it is held. |
| Objects.ZeroFilledOwnsNothing | src/main.cpp:338 | The all-zero record, and the empty record with default motion, hold no references. |
| Objects.ZeroFilledCannotMove | src/main.cpp:338 | The record ZeroBytes leaves is well formed but has MotionMaster speed 0. |
| Objects.ZeroFilledMoveIsStuck | src/main.cpp:40-70 | A real move of the zero-filled record is outside MoveToPoint's requires, since the source divides by the zero speed. The remaining clauses are arithmetic on the zero speed and do not go through Motion.Update, whose requires a zero-speed move also violates: for any positive arrival time, any number of steps of `frameTime * 0` leave the clock at 0, the step test passes and the interpolated point is the start. |
| Objects.BlankArrives | src/main.cpp:95-97 | The empty record with the MotionMaster's default speed of 10 reaches any target after enough frames. |
| Collision.CheckCollisionMap | src/main.cpp:133-149 | A point is blocked exactly when its floored coordinates are inside the image and that pixel's red value is below 128. |
| Collision.BlockedIsInsideImage | src/main.cpp:135-145 | A blocked point lies inside the image's real extent. |
| Collision.RectangleTestIsRedundant | src/main.cpp:170-172 | For a well-formed map, the rectangle pre-test never changes the verdict of the pixel test. |
| Collision.MovePointWithCollisions | src/main.cpp:150-178 | The result is the old position or the new position. It is the old position if some object's map blocks the new point, and the new position if none does. |
| Animation.GetCurrentSprite | src/main.cpp:195-201 | There is a sprite exactly when the direction's sprite or the mirrored direction's sprite exists. The direction's own sprite wins; otherwise the result is the mirrored one. |
| Animation.FallbackIsSymmetric | src/main.cpp:197-199 | With a self-inverse mirror, an object has a sprite facing `d` exactly when it has one facing `mirror(d)`. |
| Animation.GetCurrentTexture | src/main.cpp:202-209 | No texture exactly when there is no sprite; otherwise the texture is the resolved sprite's frame number `animationFrame`. |
| Animation.DrainIsLinear | src/main.cpp:348-352 | Spending `k` frame durations takes `k` times the duration from the accumulator. |
| Animation.SettledIsUnique | src/main.cpp:348-352 | The accumulator loop can stop after only one number of drains: the first that leaves at most one frame duration banked. |
| Animation.AnimatedIsDeterministic | src/main.cpp:343-353 | The relation `Animated`, which states the sprite half of the update, fixes the clock and the frame: one update has exactly one outcome. |
| Animation.NegativeDurationNeverSettles | src/main.cpp:346-352 | With a negative frame duration, as a negative `animationFps` gives, the accumulator stays above the duration after any number of steps, so the loop's guard never fails. |
| Animation.AdvanceAnimation | src/main.cpp:346-352 | The loop ends with at most one frame duration banked, after the fewest steps that achieve this. A non-negative accumulator stays non-negative. The frame advances by the number of steps modulo the frame count and stays in range. |
| Animation.AnimateObject | src/main.cpp:343-353 | Only the clock and the frame change, as `Animated` states. Without a sprite nothing changes. With fps 0 the frame time is banked and no frame advances. With fps > 0 the frame time is banked, then drained one frame duration at a time while more than one is banked, and the frame advances once per drain, wrapping at the frame count. The frame stays in range and the entity stays well formed. |
| Animation.MoveObjectAsWritten | src/main.cpp:357-363 | As written, the update that ends a move leaves the position where it was. |
| Animation.ShortMoveNeverLands | src/main.cpp:357-363 | A move shorter than one frame's step ends with the controller idle at the target while the object is still at its start. |
| Animation.MoveObject | src/main.cpp:357-363 | Corrected motion half: an idle object is unchanged. While moving, the position follows the controller's current point. The update that ends a move puts the object on the end point. Speed, clock sign and well-formedness are kept. |
| Animation.UpdateObject | src/main.cpp:340-365 | Update(Object*), with the corrected motion half: the MotionMaster takes exactly one Update step. While still moving the entity sits on the controller's current point and faces along the move. An idle entity keeps its position and direction, and an arriving one lands on its end point with the direction it had. The clock and frame advance as `Animated` states. Only the clock, frame, MotionMaster, position and direction change: every other field, frame rate and expression count included, is unchanged, and the entity stays well formed and progressing. |
| ZOrder.FootInScreenSpace | src/main.cpp:210-219 | The foot is the position, lowered by half the texture height when there is a texture. |
| ZOrder.FootInWorldSpace | src/main.cpp:220-225 | The world-space foot has the screen-space foot's x and half its y. |
| ZOrder.Outline | src/main.cpp:232-248 | Without a texture the outline is the zero rectangle; with one, it is texture-sized and centred on the position. |
| ZOrder.FootIsOutlineBottomCenter | src/main.cpp:210-248 | The screen-space foot is the midpoint of the outline's bottom edge. |
| ZOrder.InvisibleIsUnpickable | src/main.cpp:235-239 | An object without a sprite contains no point in its outline. |
| ZOrder.SortIndices | src/main.cpp:257-266 | The insertion sort yields a permutation of the indices, in non-increasing key order. |
| ZOrder.ZSort | src/main.cpp:249-268 | GetZSortedObjects is a permutation of all live rows with the largest z key (foot y plus z offset) first. |
| ZOrder.ZSortIsPermutation | src/main.cpp:253-257 | The sorted order has one entry per row, every row appears, and none appears twice. |
| ZOrder.FindObjectAtPosition | src/main.cpp:269-288 | Nothing is found exactly when no outline contains the point. A found row is hit, no row before it in z order is hit, and no hit row has a larger z key. |
| ZOrder.FirstHitIsFrontmost | src/main.cpp:275-283 | In z order, the first hit has a key at least that of every hit. |
| ZOrder.EqualNocaseIsEquivalence | src/main.cpp:183 | Case-insensitive name equality is reflexive, symmetric and transitive. |
| ZOrder.FindObjectByName | src/main.cpp:180-187 | Nothing is found exactly when no row's name matches. A found row matches, and no earlier row does. |
| SceneTable.TableOwnedAppend | src/main.cpp:123-125 | The references two runs of rows own add up. |
| SceneTable.DeleteRow | src/main.cpp:911-931 | Corrected delete (the main.cpp:330-339 finding). Row 0 is never deleted. Otherwise the rows after `i` move down one place, the rest are kept, and the ledger gives back exactly what row `i` owns, all ten portrait slots included. |
| SceneTable.CloneRow | src/main.cpp:941-954 | Corrected clone (the main.cpp:330-339 finding). At capacity nothing happens. Otherwise an exact copy of row `i`, name included, lands at `i + 1`, later rows move up one place, and the ledger gains everything the copy owns, all ten portrait slots included. |
| SceneTable.DeleteRowAsWritten | src/main.cpp:330-339 | As written: the rows move as in the corrected delete, but the ledger gives back only the references Destroy counts, the first `numExpressions` portraits. |
| SceneTable.CloneRowAsWritten | src/main.cpp:320-329 | As written: the rows move as in the corrected clone, but the ledger gains only the references Clone re-acquires, the first `numExpressions` portraits, although CopyBytes copied all ten handles. |
| SceneTable.DeleteAsWrittenLeaks | src/main.cpp:330-339 | Deleting a loaded row (`numExpressions` 0, a portrait in slot 0) as written leaves a balanced ledger unbalanced: the portrait stays held with no row owning it. |
| SceneTable.CloneAsWrittenUnbalances | src/main.cpp:320-329 | Cloning such a row as written leaves a balanced ledger unbalanced: the copy owns the portrait, but no reference to it was acquired. |
| SceneTable.DecimalStringRoundTrip | src/main.cpp:985 | The `%d` digits of a count read back as that count. |
| SceneTable.NewObjectNameParses | src/main.cpp:984-985 | The new row's name is "Object" followed by digits that read back as the count, and it fits `char name[50]`. |
| SceneTable.AddRow | src/main.cpp:980-986 | Corrected add (the main.cpp:338 finding): the source `memset`s the new row at main.cpp:983, zeroing its speed, where the model appends the empty record with the MotionMaster defaults. At capacity nothing happens. Otherwise the rows are kept, an empty record named after the new count is appended, and the ledger is unchanged. |
| SceneTable.DeletePreservesBalance | src/main.cpp:926-928 | Deleting any row keeps the ledger balanced with the live rows. |
| SceneTable.ClonePreservesBalance | src/main.cpp:950-952 | Cloning keeps the ledger balanced. |
| SceneTable.AddPreservesBalance | src/main.cpp:982-985 | Adding keeps the ledger balanced. |
| SceneTable.EditsKeepShape | src/main.cpp:911-986 | No edit exceeds the 100 rows, and the player stays in row 0. |
| SceneTable.DeleteUndoesClone | src/main.cpp:926-952 | Deleting the fresh copy undoes a clone, ledger included. |
| SceneTable.DeleteUndoesAdd | src/main.cpp:926-985 | Deleting the last row undoes an add. |
| Codec.Encode | src/main.cpp:454-477 | The stream has 3 + 36 tokens per object and starts with "KEKW", version 2 and the object count. |
| Codec.ReadRecord | src/main.cpp:419-438 | A record is read exactly when its tokens have the kinds LoadScene reads. |
| Codec.Fill | src/main.cpp:420-438 | Reading a record changes only the fields the file holds. Names are cut to their buffers and the arrays have their C sizes. |
| Codec.ParseObject | src/main.cpp:419-438 | Corrected record parse (the main.cpp:427 and 346-352 findings): the source stores any direction and frame rate, where the model refuses out-of-range ones. A record is accepted exactly when it is well typed, its direction indexes the sprites and its frame rate is not negative. It is then the record read onto an empty record, with its handles what the cache gives. |
| Codec.DecodeObjects | src/main.cpp:417-439 | Corrected record loop. `count` records are read exactly when the stream holds `count` windows of 36 tokens and each window passes ParseObject. Record `i` is then what ParseObject makes of window `i`. |
| Codec.Header | src/main.cpp:397-416 | The header is accepted exactly when the magic and the version match and a count follows. A wrong magic is reported as BadMagic, and a good magic with another version as BadVersion. |
| Codec.Decode | src/main.cpp:397-439 | Corrected parse. A header failure is passed on and a count outside 1..100 is refused. A good header with a count in range gives exactly DecodeObjects of the tokens after the header. On success the count matches and every record is accepted. |
| Codec.DecodeAsWritten | src/main.cpp:413-439 | As written: any count is taken. A non-positive count yields no records, and records are read onto the zero-filled record without checks. |
| Codec.RestoredAll | src/main.cpp:417-439 | Each saved row is restored, in order, onto the base record. |
| Codec.ReadEncodedRecord | src/main.cpp:419-476 | Reading back one record SaveScene wrote gives the saved object restored onto the base record. |
| Codec.DecodeEncodedObjects | src/main.cpp:417-477 | Reading back all the records SaveScene wrote restores every row in order. |
| Codec.SaveLoadRoundTrip | src/main.cpp:445-477 | Decoding a saved table of 1..100 valid rows, followed by any trailing tokens, gives every row restored onto an empty record. |
| Codec.RestoredKeepsSavedFields | src/main.cpp:420-476 | When the cache gives back the same assets and names fit, a restored row equals the saved one except that animation clock, frame, `numExpressions` and motion are reset. |
| Codec.OverfullCountAccepted | src/main.cpp:416-417 | As written, a stream with count 101 loads 101 records into a 100-slot table; the corrected parse refuses it. |
| Codec.NegativeCountStored | src/main.cpp:416 | As written, a count of -1 is stored; the corrected parse refuses it. |
| Codec.OutOfRangeFieldsAccepted | src/main.cpp:426-427 | As written, direction 8 and frame rate -1 load; the corrected parse refuses each. |
| Camera.UpdateCameraShake | src/main.cpp:310-318 | Trauma drops by the falloff and is never negative afterwards. When it reaches 0 it is clamped and the falloff returns to `0.7 * FRAME_TIME`. |
| Camera.SettleNeverGrows | src/main.cpp:312-317 | With a positive falloff, trauma never grows over repeated updates and the falloff stays positive. |
| Camera.ShakeSettles | src/main.cpp:312-317 | With a positive falloff, once the frames times the falloff cover the trauma, the trauma is exactly 0. |
| Camera.StaysSettled | src/main.cpp:312-317 | Settled trauma stays at 0. |
| Game.DeletePreservesValid | src/main.cpp:911-931 | Deleting keeps the state invariant: ledger balanced, player present, within 100 rows, every row live. |
| Game.ClonePreservesValid | src/main.cpp:941-954 | Cloning keeps the state invariant. |
| Game.AddPreservesValid | src/main.cpp:980-986 | Corrected add (the main.cpp:338 finding): adding the empty record with the default speed keeps the state invariant. The source's zeroed row has speed 0 and would not be live. |
| Game.UpdateRow | src/main.cpp:340-365 | Corrected Update(Object*) (the main.cpp:357-363 finding) on a live row keeps it live and `Stepped`. Only the clock, frame, MotionMaster, position and direction change, so name, references, frame rate and expression count are unchanged. The MotionMaster takes one Update step, and a moving row follows its current point and faces along the move. An idle row stays put, an arriving row lands on its end point, both keep their direction, and the clock and frame advance as `Animated` states. |
| Game.UpdateAll | src/main.cpp:681-682 | The update loop with the corrected Update(Object*) (the main.cpp:357-363 finding). It keeps the invariant and the ledger, and every row is `Stepped` as in Game.UpdateRow. |
| Persistence.LoadScene | src/main.cpp:379-444 | Corrected load (the main.cpp:416-417, 427, 346-352 and 330-339 findings). A missing or unreadable file, or a stream Codec.Decode refuses, changes nothing. A load replaces the rows with the decoded ones, remembers the truncated path and keeps dev mode and shake. In the ledger, everything the old rows own is swapped for the new rows' references. |
| Persistence.SaveScene | src/main.cpp:445-483 | The file's header carries the row count and has 36 tokens per row. The path is remembered only when the write succeeds. |
| Persistence.ForeignFileLeavesStateAlone | src/main.cpp:397-411 | A stream with the wrong magic or version leaves the state untouched. |
| Persistence.LoadPreservesValid | src/main.cpp:379-444 | Loading any file keeps the state invariant. |
| Persistence.SaveThenLoadRestores | src/main.cpp:379-483 | Saving and loading back restores the same rows in order, with only the unsaved fields reset, and leaves the ledger exactly as before. |
| Console.HandleTeleport | src/main.cpp:497-513 | Succeeds exactly with two numeric arguments and then places the player there; otherwise changes nothing. |
| Console.HandleDevMode | src/main.cpp:514-530 | No argument toggles dev mode; a boolean argument sets it; anything else fails and changes nothing. Nothing but dev mode changes. |
| Console.HandleShake | src/main.cpp:531-553 | Succeeds exactly with at most two numeric arguments. The trauma grows by the first (default 0.5) and the falloff becomes the second (default `0.7 * FRAME_TIME`). Nothing else changes. |
| Console.SoundReadsMissingArgument | src/main.cpp:557-560 | As written, an empty argument list passes the arity test and the handler reads the missing `args[0]`, where the corrected handler refuses. On every non-empty list the two agree. |
| Console.HandleSoundAsWritten | src/main.cpp:554-577 | As written, the handler reaches a read of a missing `args[0]` exactly for the empty list. More than three arguments are refused. |
| Console.HandleSound | src/main.cpp:554-577 | Corrected: succeeds exactly with a path and at most two numeric options. It requests that path with volume and pitch defaulting to 1. |
| Console.HandleMove | src/main.cpp:578-596 | Succeeds exactly with two numeric arguments, and then only the player's MotionMaster changes. A zero offset leaves it as it was; otherwise it heads from the player's position to that position plus the offset. |
| Console.HandleSave | src/main.cpp:597-608 | Succeeds exactly with at most one argument. It saves to the argument or the last scene path, and reports success even when the write fails. |
| Console.HandleLoad | src/main.cpp:609-620 | Succeeds exactly with at most one argument. It loads the argument or the last scene path, and reports success even when the load is refused. |
| Console.TeleportPreservesValid | src/main.cpp:497-513 | `tp` keeps the state invariant. |
| Console.MovePreservesValid | src/main.cpp:578-596 | `move` keeps the state invariant: the player stays live, and in particular keeps a positive speed. |
| Console.SettingsCommandsPreserveValid | src/main.cpp:514-553 | `dev`, `shake`, `save` and `load` keep the state invariant, whatever the file holds. |

## Left out

- Rendering, GameInit, the game-state stack, the Talking and Paused states,
  ImGui windows, input handling and the player's stick movement: these are
  I/O and presentation around the core.
- GetCharacterPortrait and DistanceBetween (main.cpp:188-194, 226-231) are
  not modelled. GetCharacterPortrait is a lookup used only by the dialogue
  state; DistanceBetween is used by the playing state's interact test
  (main.cpp:646), which is input handling.
- MotionMaster::GetDirection, DirectionFromVector and Vector2Normalize are
  not modelled. Their composition is the `facing` parameter, because it is
  floating-point geometry in core.h.
- Camera following, the Perlin-noise shake offsets and zoom are not modelled.
  They only move the view.
- Geometry uses exact real arithmetic, so IEEE rounding, infinities and NaN
  are absent. `Vector2 ==` is exact equality.
- Integers are unbounded. The 32-bit `int` range of counts and directions is
  not modelled; the corrected parse's range checks make it irrelevant.
- The 32 KB save buffer bound is not modelled. At the table's 100 rows with
  bounded names, a save fits well within it only if paths are short; the
  model does not check this.
- BinaryStream is not part of this model. A stream that is short or whose
  tokens have the wrong kinds is refused without touching the table
  (`Codec.Failure.Malformed`). What core.h really returns on such input is
  unknown.
- Table slots beyond `numObjects` are not modelled: the table is the sequence
  of live rows. A loaded row therefore starts from an empty record rather than
  from whatever a stale slot held.
- The clone keeps the source row's name. The source computes a unique
  `cloneName` (main.cpp:945-948) but never stores it; the model follows the
  code.
- The editor's overlapping CopyBytes (main.cpp:927, main.cpp:950) is modelled
  as a memmove.
- Animation.GetCurrentTexture: requires the frame to index the resolved
  sprite. `animationFrame` is not re-ranged when the direction changes
  (main.cpp:362), so the source can index past a shorter sprite. The model
  only states the in-range case.
- Animation.AnimateObject: an `animationFps` of 0 is modelled as "time is
  banked, no frame advances". This is what IEEE infinity gives in
  main.cpp:346-348.
- Motion.MoveToPoint: requires a non-zero speed for a real move, because the
  source divides by it. A move issued while already moving keeps
  `motionTime`, as written.
- Codec.CacheAgrees and Persistence.SaveThenLoadRestores: rely on the cache
  handing back, for a path, the same asset a handle already carries, and on
  the empty path (GetAssetPath of NULL) never yielding an asset
  (`Assets.EmptyPathMisses`). The cache itself is external.
- Objects.Truncate: CopyString is not part of this model and is taken to
  behave like strlcpy. The model counts characters, where CopyString counts
  bytes. A name with non-ASCII characters is UTF-8 in the source, so it is
  cut earlier there, and possibly in the middle of a character.
- ZOrder.EqualNocase: StringsEqualNocase is not part of this model and is
  taken as ASCII case folding.
- ZOrder.ZSort: core.h's Sort is not part of this model and its stability is
  unknown. The model's insertion sort keeps index order among equal keys.
  Sortedness and permutation hold for any sort, but which of several
  equal-key hits FindObjectAtPosition returns may differ.
- Console.HandleShake: a negative falloff makes trauma grow. Camera's decay
  lemmas assume a positive falloff and do not state that case.
- Console.HandleSound: playing the sound is outside the model. The handler
  returns the request.
- Persistence.LoadScene: the log messages and the file-exists test that only
  picks a message are not modelled.

## Findings

| source | as written | input that shows it | evidently intended | confidence | as-written member | corrected member |
|---|---|---|---|---|---|---|
| src/main.cpp:416-417 | `numObjects` takes the file's count unchecked | a stream with count 101 (or -1) | refuse counts outside 1..100, leaving row 0 for the player | not executed | Codec.DecodeAsWritten, Codec.OverfullCountAccepted, Codec.NegativeCountStored | Codec.Decode, Persistence.LoadScene |
| src/main.cpp:427 | any integer is stored as the direction, which then indexes `sprites[8]` | a record with direction 8 | refuse directions outside 0..7 | not executed | Codec.DecodeAsWritten, Codec.OutOfRangeFieldsAccepted | Codec.Decode, Persistence.LoadScene, Codec.ParseObject |
| src/main.cpp:330-339 | LoadScene acquires all ten portraits but leaves `numExpressions` at 0; Destroy and Clone handle only the first `numExpressions` portraits, so loaded portraits are never released | a loaded object with a portrait in slot 0, then deleted, cloned or reloaded | every held reference is released once, so the ledger stays balanced | not executed | Objects.CountedReferences, Objects.LoadedPortraitOutlivesDestroy, SceneTable.DeleteRowAsWritten, SceneTable.DeleteAsWrittenLeaks, SceneTable.CloneRowAsWritten, SceneTable.CloneAsWrittenUnbalances | Objects.Owned, SceneTable.DeleteRow, SceneTable.CloneRow, SceneTable.DeletePreservesBalance, SceneTable.ClonePreservesBalance, Persistence.LoadScene, Persistence.SaveThenLoadRestores |
| src/main.cpp:338 | ZeroBytes after Destroy (and `memset` in the editor's add, main.cpp:983) zeroes the MotionMaster's speed, whose default is 10, so a later move divides by zero | a reloaded or freshly added object given `move 1 0` | the emptied record keeps the MotionMaster defaults | not executed | Objects.ZeroFilledCannotMove, Objects.ZeroFilledMoveIsStuck | Objects.BlankArrives, SceneTable.AddRow, Codec.Decode, Game.AddPreservesValid |
| src/main.cpp:557-560 | `sound` refuses only more than three arguments and then reads `args[0]` | `sound` with no arguments | refuse a missing path | not executed | Console.HandleSoundAsWritten, Console.SoundReadsMissingArgument | Console.HandleSound |
| src/main.cpp:357-363 | the position follows the MotionMaster only while it is still moving, so the update that snaps it to the end point leaves the object short of its target | a move whose distance is less than one frame's step | the arriving update puts the object on the end point | not executed | Animation.ShortMoveNeverLands | Animation.MoveObject, Animation.UpdateObject, Game.UpdateRow, Game.UpdateAll |
| src/main.cpp:346-352 | a negative `animationFps`, which a scene file can hold (main.cpp:426), makes the frame duration negative and the accumulator loop never ends | a record with frame rate -1 | refuse negative frame rates | not executed | Animation.NegativeDurationNeverSettles, Codec.OutOfRangeFieldsAccepted | Codec.Decode, Persistence.LoadScene, Codec.ParseObject |
