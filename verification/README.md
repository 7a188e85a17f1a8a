# midi_game control core in Dafny

A model of the deterministic core of a small MIDI-controlled 2D action game:

- **GunLatch** (`gun.dfy`, from `src/gun.rs`): the player's bolt-action gun. Its state is a
  latch (`Closed` or `Open`) and a chamber flag `isLoaded`. Closing an open latch chambers a round.
  Firing (`TryConsume`) needs a closed latch and a chambered round. It fails with `LatchWasOpen` or
  `NotLoaded`, and the caller can tell the two apart.
- **InputHub** (`input.dfy`, from `src/input.rs`): the controller input as a pure value, made of two
  maps from controller identifier to the latest raw sample. `current` holds this frame's samples and
  `previous` the kept ones. The model covers recording a control-change message and the button
  queries (pressed, held, released). It also covers slider fractions, the two-sample level-crossing
  detector, and the end-of-frame `Flush`.
- **PlayerControl** (`player.dfy`, from `src/player.rs`): the per-frame control logic of the player,
  as a pure function from the hub and the player's control state to the new state plus the
  animation request. It covers the mapping from (action, stance) to animation clip, the vertical
  physics step that decides grounding, and the grounded-only jump. It also covers movement with left before right, firing before the latch
  update, latch and crouch sliders, and "last chosen action wins" for the animation.
- **Wrappers** (`wrappers.dfy`): `Option` and `Result`.

Fractions are exact reals `value / 127`. For every byte, comparisons against the thresholds 0.7 and
0.3 give the same answer as the source's `f32` arithmetic, since 88/127 < 0.7 < 89/127 and
38/127 < 0.3 < 39/127. `PlayerControl.RaiseThresholdInBytes` and `PlayerControl.DropThresholdInBytes`
state these crossings as byte bounds.

## Model

| member | source | states |
|---|---|---|
| GunLatch.New | src/gun.rs:18-23 | a fresh gun cannot shoot; firing it fails with `NotLoaded` and leaves it unchanged |
| GunLatch.CanShoot | src/gun.rs:25-27 | true exactly when `try_consume` would succeed |
| GunLatch.SetLatchState | src/gun.rs:29-35 | the latch ends in the requested state; a round appears only when an open latch is closed, closing an open latch always chambers one, and moving the latch never removes a round |
| GunLatch.TryConsume | src/gun.rs:37-48 | succeeds exactly on a closed, loaded gun and then empties the chamber; an open latch fails with `LatchWasOpen` whatever the chamber holds, an empty closed gun fails with `NotLoaded`, and both failures leave the gun unchanged; firing never moves the latch |
| GunLatch.RunSnoc | src/gun.rs:29-48 | running a prefix of a trace and then the next operation is running the longer prefix |
| GunLatch.LoadedOnlyByChambering | src/gun.rs:29-33 | in any trace of latch moves and shots, a step that loads the chamber closes an open latch |
| GunLatch.ShotsBoundedByChamberings | src/gun.rs:29-48 | over any trace, successful shots plus a round left in the chamber never exceed the Open-to-Closed transitions plus the round present at the start |
| GunLatch.FreshGunNeedsChambering | src/gun.rs:18-48 | a freshly made gun shoots no more often than its latch is closed after opening |
| GunLatch.ChamberThenFireTwice | src/gun.rs:29-48 | from any gun: open, close, fire, fire gives one success and then `NotLoaded`, leaving the gun closed and empty |
| InputHub.Empty | src/input.rs:47-48 | before any message no button is pressed or held and every slider reads 0 |
| InputHub.Record | src/input.rs:144-155 | a message of three or more bytes replaces the sample of identifier `message[1]` with value `message[2]` and changes no other entry of either map; a shorter message is refused |
| InputHub.RecordThenPressed | src/input.rs:144-155 | after recording, the message's button is pressed exactly when the value is 127 |
| InputHub.RecordLastWins | src/input.rs:144-155 | two messages for one identifier in a frame leave only the later one |
| InputHub.RecordCommutes | src/input.rs:144-155 | messages for different identifiers give the same hub in either order |
| InputHub.RecordKeepsDataBytes | src/input.rs:144-155 | recording data bytes keeps every stored value at most 127 |
| InputHub.IsButtonHeld | src/input.rs:52-68 | held exactly when some map has the identifier and every sample either map has for it is 127 |
| InputHub.IsButtonPressed | src/input.rs:70-77 | pressed exactly when this frame's map has the identifier at 127 |
| InputHub.PressedIgnoresPrevious | src/input.rs:70-77 | the kept samples have no effect on pressed |
| InputHub.PressedAndHeld | src/input.rs:52-77 | a press with a kept sample of 127 or no kept sample is held; a held button with a sample this frame is pressed |
| InputHub.IsButtonReleased | src/input.rs:79-81 | released exactly when this frame has no sample at 127, with no check of an earlier press |
| InputHub.ConvertToFraction | src/input.rs:83-85 | the fraction times 127 is the raw value, so it lies in [0, 1] for data bytes |
| InputHub.FractionMonotone | src/input.rs:83-85 | raw values and their fractions are ordered alike |
| InputHub.GetFraction | src/input.rs:87-97 | this frame's fraction, else the kept one, else 0; within [0, 1] when the stored values are data bytes |
| InputHub.FractionReachedLimit | src/input.rs:100-118 | false unless both maps have the identifier; Higher means kept < threshold <= current, Lower means current <= threshold < kept |
| InputHub.HigherLowerExclusive | src/input.rs:105-114 | one threshold is never crossed upwards and downwards in the same frame |
| InputHub.NoCrossingWhenSteady | src/input.rs:105-114 | a slider whose value did not change crosses no threshold |
| InputHub.Flush | src/input.rs:121-133 | afterwards this frame's map is empty; each identifier it held has that sample as its kept sample; every other kept sample is unchanged and none is added |
| InputHub.FlushByIteration | src/input.rs:121-133 | the source's loop, one identifier at a time, computes exactly `Flush` |
| InputHub.FlushIdempotent | src/input.rs:121-133 | flushing twice equals flushing once |
| InputHub.FlushedHubIsQuiet | src/input.rs:121-133 | after a flush no button is pressed, every button is released and no slider crosses anything |
| InputHub.FlushKeepsFraction | src/input.rs:121-133 | a flush changes no slider reading: the last level persists |
| InputHub.HeldSurvivesFlush | src/input.rs:52-68 | a button pressed this frame is still held after the flush, though no longer pressed |
| InputHub.FlushKeepsDataBytes | src/input.rs:121-133 | flushing keeps every stored value at most 127 |
| PlayerControl.ToAnimation | src/player.rs:36-56 | the clip shows the given action and is a crouch clip exactly when crouched |
| PlayerControl.ToAnimationInjective | src/player.rs:36-56 | distinct (action, stance) pairs give distinct clips |
| PlayerControl.ToAnimationOnto | src/player.rs:36-56 | every clip is the image of its own action and stance |
| PlayerControl.NewPlayer | src/player.rs:72-123 | a new player has zero vertical velocity and jump strength 0.05, stands, faces left, is not grounded, shows the standing idle clip the animation instance starts with, and holds a gun that cannot fire |
| PlayerControl.Jump | src/player.rs:141-145 | in the air nothing changes; on the ground only the vertical velocity changes, to minus the stored strength times 12 |
| PlayerControl.JumpIdempotent | src/player.rs:167-174 | the second jump call of a frame changes nothing |
| PlayerControl.Move | src/player.rs:157-165 | left held faces left and chooses Run; otherwise right held faces right and chooses Run; otherwise nothing changes; nothing but facing is touched |
| PlayerControl.JumpControl | src/player.rs:167-174 | with the jump button held or pressed the result is one jump; otherwise nothing changes; only vertical velocity is touched |
| PlayerControl.Fire | src/player.rs:177-207 | fire pressed applies `try_consume` once and chooses Shoot if the gun could shoot, Jammed for either error; not pressed leaves everything unchanged |
| PlayerControl.RaiseThresholdInBytes | src/player.rs:209-211 | a fraction is at least the 0.7 raise threshold exactly when the byte is at least 89 |
| PlayerControl.DropThresholdInBytes | src/player.rs:223-225 | a fraction is at most the 0.3 drop threshold exactly when the byte is at most 38 |
| PlayerControl.RiseInBytes | src/input.rs:100-118 | rising past 0.7 means both samples exist, the kept one is at most 88 and the current one at least 89 |
| PlayerControl.DropInBytes | src/input.rs:100-118 | falling past 0.3 means both samples exist, the kept one is at least 39 and the current one at most 38 |
| PlayerControl.AtMostOneCrossing | src/player.rs:209-236 | a slider never rises past 0.7 and falls past 0.3 in the same frame |
| PlayerControl.Latch | src/player.rs:209-236 | a rise opens the latch and chooses HatchOpen, a fall closes it and chooses HatchClose, otherwise nothing changes; only the gun is touched |
| PlayerControl.Crouch | src/player.rs:238-265 | a rise stands the player up, a fall crouches, either choosing Idle; otherwise nothing changes |
| PlayerControl.ProcessInput | src/player.rs:155-278 | grounding and the current clip are only read; jump strength becomes slider 0's fraction; any request is for a clip not already playing, in the final stance, falling back to that stance's idle |
| PlayerControl.ProcessInputFacing | src/player.rs:157-165 | per frame, left held faces left whatever right does, right alone faces right, neither keeps the facing |
| PlayerControl.ProcessInputGun | src/player.rs:177-236 | the frame's gun is one optional shot on the starting gun followed by at most one latch move; with no fire press and no latch crossing the gun is unchanged |
| PlayerControl.RequestNotRepeated | src/player.rs:269-277 | once the framework plays the requested clip, repeating the frame's input without fire requests nothing |
| PlayerControl.FireBeforeLatch | src/player.rs:177-236 | fire pressed on an open empty gun while the latch slider drops jams first and then chambers, ending loaded and closed |
| PlayerControl.ProcessInputCrouch | src/player.rs:238-265 | per frame, stance follows the crouch slider's crossing and is otherwise kept |
| PlayerControl.ProcessInputJump | src/player.rs:167-174 | vertical velocity changes only on the ground with the jump button held or pressed, using the strength stored before this frame |
| PlayerControl.ProcessInputAnimation | src/player.rs:156-277 | the requested clip is the latest-evaluated chosen action, in the final stance, requested exactly when it is not already playing |
| PlayerControl.Update | src/player.rs:126-137 | the physics step touches only height, vertical velocity and grounding; the player never ends below the ground line, is grounded exactly when on it and then at rest, and in the air moved by exactly the new velocity |
| PlayerControl.UpdateAtRest | src/player.rs:126-137 | a player resting on the ground line stays there, grounded, whatever the frame time |
| PlayerControl.UpdateLiftsOff | src/player.rs:126-137 | an upward velocity on the ground line takes the player off the ground by exactly that velocity |
| PlayerControl.Tick | src/main.rs:74-90 | a frame ends with an empty current map, no slider reading changed by the flush, the jump strength set from slider 0, and the clip the animation framework reports as playing; the player is never below the ground line, grounded exactly when on it, and then either at rest or jumping with the strength from before the frame; in the air the velocity is the frame's height change |
| PlayerControl.JumpOncePerTakeOff | src/player.rs:126-145 | a jump from rest on the ground keeps the player grounded in that frame with the jump velocity; in the next frame, whatever its input, the player is airborne and the jump check adds nothing |
| PlayerControl.SliderCycleThenFireTwice | src/player.rs:177-236 | from power-on with any gun, at any height, with any frame time and whatever clips play: slider 1 low, up, down, then fire twice opens and then loads the gun, shoots once, and then jams on the empty chamber |

## Left out

- `Input::new` and the device part of `Input::connect` (src/input.rs:30-50, 135-160): port enumeration, the fatal no-device case, port naming and the midir connection are foreign-library I/O. Only the map insert of the callback is modelled, as `InputHub.Record`.
- Mutex locking, lock order and the listener thread: every operation is atomic on a pure hub value, so concurrency and poisoned-lock aborts are not modelled.
- InputHub.Record: the source panics on a message shorter than three bytes, and that poisons the lock. The model returns `MessageTooShort` instead and does not model the later aborts.
- InputHub.ConvertToFraction: uses the exact quotient `value / 127`, not the rounded `f32` one. For the thresholds 0.7 and 0.3 both agree on every byte; for other thresholds rounding is not modelled.
- The timestamp of a sample is stored and never read; the model stores it opaquely as a 64-bit value.
- PlayerControl.Update: gravity, height and the ground line 256 * 0.4 are exact reals, not `f32`, so rounding near the ground line is not modelled. The frame time is a parameter, because it comes from the clock. The `animation.update(dt)` call at its end belongs to the animation framework.
- The horizontal displacement `MOVE_SPEED * dt` is not modelled. Only the height of the player's position is part of the model; for horizontal movement only facing and the Run choice are.
- PlayerControl.Jump: uses exact reals for `-jump_strength * MAX_JUMP_STRENGTH` rather than `f32` products.
- `play_sound_once` calls and logging: the audio framework is fire-and-forget and the `println!` in `set_latch_state` (src/gun.rs:34) only logs, so which sound plays and what is printed are not modelled.
- The animation framework: `AnimationInstance` setup, clip frame ranges, playback timing and `draw` are external. The model records only the `play_animation_then` request. `animation` in the player state stands for the framework's `current_animation`. The model never chooses it: `ProcessInput` only reads it, and `Tick` copies in the clip the framework reports.
- PlayerControl.Tick: the clip playing after a frame is a parameter, because it is decided by the external animation framework from the request and playback timing; the model does not say which clip that is.
- src/main.rs beyond the order "update, control logic, then flush" used by `PlayerControl.Tick`: state management, asset loading, camera and water parameters read from sliders 3, 4, 6 and 7.
- src/resources.rs and src/water.rs are not part of this model. They hold resource wiring and GPU setup. From src/constants.rs only the values of `GAME_SIZE.y`, `GRAVITY` and `MAX_JUMP_STRENGTH` are used; `MOVE_SPEED` is not.
