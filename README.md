# Remote character trust layer — Dafny model

This project models the three pieces of decision and state logic that keep a
remote player's character in check in a multiplayer Unity/Photon game:

- **CharacterNetworkSync** receives the owner's periodic snapshots (health, mana,
  position and a one-byte movement-input field). It hands each position to the
  movement cheat detector. Then, on every render tick, it moves the rendered
  position towards the received one by interpolation that takes at most
  `maxLerpTime`. After that it extrapolates from the last input until the
  extrapolation time reaches `maxExtrapolationTime`; the gate is checked
  before the tick's time is added, so the last tick may pass it by up to one
  tick.
- **MovemantCheatDetection** (the source's spelling) measures the speed between
  consecutive positions and keeps a window of at most 20 samples. It
  compares the window's average speed with its average speed stat. A cheat
  is signalled once the excursion over `THRESHOLD` (0.5) has lasted more than
  `CHEAT_TIME` (1).
- **AbilityCheatDetection** checks an ability cast's targeting, cooldown and mana
  cost, each with a tolerance (range -2, cooldown 1, mana 2).

Files: `InputBits.dfy` (input byte encoding), `Vectors.dfy` (positions, min/max,
lerp), `NetworkSync.dfy` (the reconciler, a class whose tick is specified by pure
functions on its render state), `Queues.dfy` (the bounded FIFO), `MovementCheat.dfy`
(the detector class with its averaging and timer logic as functions),
`AbilityCheat.dfy` (pure functions).

Positions are vectors of reals. Distances are passed in as non-negative reals.
The network clock, the local clock and the tick length are parameters. So is
the speed stat. An ability is the record of the values its methods return for
the cast being checked. Delegate events become returned booleans.

Three behaviours of the code that are easy to misread, and that the model keeps:

- The movement signal fires on every sample while the excursion lasts and
  more than `CHEAT_TIME` has passed, not just once per excursion
  (`SignalIffExcursionOutlastsCheatTime`).
- The persistence comparison is strict (`> CHEAT_TIME`), not `>=`.
- A sample whose elapsed network time is not positive is not skipped by the
  code. Here it is a precondition of `SetNext` (`Accepts`).

## Model

| member | source | states |
|---|---|---|
| InputBits.BitMask | CharacterNetworkSync.cs:51-63 | the byte-cast `1 << p` of C#: the shift count is taken modulo 32, and the mask is 0 exactly when that count is 8 or more, because the cast drops the bit |
| InputBits.BitMaskValue | CharacterNetworkSync.cs:51-63 | the mask of a position is the power of two of the position modulo 32 when that is below 8, a single bit, and 0 otherwise |
| InputBits.SetBitInByte | CharacterNetworkSync.cs:47-59 | a position at 8 or above, modulo 32, leaves the byte unchanged; setting only adds bits, and clearing only removes them |
| InputBits.GetBitValue | CharacterNetworkSync.cs:61-64 | a position at 8 or above, modulo 32, reads as unset (the `int` mask lies outside the byte) |
| InputBits.SetBitThenGet | CharacterNetworkSync.cs:47-64 | after `SetBitInByte(b, p, v)` with p below 8 modulo 32, `GetBitValue` at p reads v |
| InputBits.SetBitKeepsOthers | CharacterNetworkSync.cs:47-64 | `SetBitInByte` leaves the reading at every other position (modulo 32, as C# shifts) unchanged |
| InputBits.EncodeInputByte | CharacterNetworkSync.cs:68-81 | successive `SetBitInByte` calls give the reference byte, presence bits 1/5 iff the axis is non-zero and direction bits 2/6 iff it is positive; no other bit is set |
| InputBits.DecodeInput | CharacterNetworkSync.cs:95-115 | each decoded axis value is -1, 0 or +1, and it is non-zero iff that axis is flagged as having input |
| InputBits.EncodeDecodeRoundTrip | CharacterNetworkSync.cs:71-81 | decoding the encoded byte gives: has-input iff the move is non-zero, and the value is the sign of the move, for both axes |
| InputBits.DecodeEncodeRoundTrip | CharacterNetworkSync.cs:95-115 | for a well-formed byte, re-encoding the decoded values restores the byte's input bits |
| InputBits.EncodedInputWellFormed | CharacterNetworkSync.cs:71-81 | every encoded byte sets a direction bit only together with its presence bit |
| NetworkSync.LerpDuration | CharacterNetworkSync.cs:140 | the lerp duration is positive and at most `maxLerpTime`; it is distance/speed when that is within the cap, and the cap otherwise |
| NetworkSync.StartLerpingKeepsInvariant | CharacterNetworkSync.cs:133-144 | interpolation is on iff distance > 0; then lerp time and percentage are 0 and the duration is at most `maxLerpTime` |
| NetworkSync.InterpolateStepBudget | CharacterNetworkSync.cs:184-196 | the percentage stays in [0, 1] and reaches 1 iff accumulated time covers the duration; the tick budget left is at least 0, never grows, and is 0 unless the lerp completed, in which case it is exactly the unneeded part |
| NetworkSync.InterpolateStepCompletion | CharacterNetworkSync.cs:197-206 | on completion the rendered position equals the target, interpolation stops, and extrapolation starts iff there is input (time reset to 0); before completion nothing about extrapolation changes |
| NetworkSync.InterpolateStepStaysBetween | CharacterNetworkSync.cs:197 | an interpolation step never overshoots: each coordinate of the new rendered position lies between the old rendered position's and the target's |
| NetworkSync.OneDriverPerTick | CharacterNetworkSync.cs:160-182 | at most one of interpolation and extrapolation drives a tick: if interpolation still runs after it, the movement controller got no time; if it got time, interpolation is over and extrapolation is on |
| NetworkSync.TickKeepsInvariant | CharacterNetworkSync.cs:160-182 | a tick keeps the render invariant and never hands negative time to the movement controller |
| NetworkSync.ExtrapolationGate | CharacterNetworkSync.cs:170-177 | extrapolation runs iff `extrapolate` and extrapolation time is below the cap after the interpolation phase; then it adds exactly the leftover budget |
| NetworkSync.RunKeepsInvariant | CharacterNetworkSync.cs:160-207 | over several ticks the invariant holds; while still interpolating, lerp time is the start time plus the sum of the ticks |
| NetworkSync.InterpolationFinishes | CharacterNetworkSync.cs:184-206 | without a new snapshot, interpolation is over once the ticks sum to the time it still needs |
| NetworkSync.ExtrapolationBounded | CharacterNetworkSync.cs:170-177 | without a new snapshot, starting once interpolation is over, time handed to the movement controller equals the growth of extrapolation time, which passes the cap by at most one tick |
| NetworkSync.CharacterNetworkSync.constructor | CharacterNetworkSync.cs:12-45 | initial field values; a detector exists iff the character is remote, and starts with no baseline (prevTime 0, zero position), an empty window and the timer unset |
| NetworkSync.CharacterNetworkSync.StartPositionLerping | CharacterNetworkSync.cs:133-144 | new render state is `StartLerping` of the old one; the start position is the old rendered position |
| NetworkSync.CharacterNetworkSync.StartPositionExtrapolation | CharacterNetworkSync.cs:150-157 | `extrapolate` becomes "has vertical or horizontal input", and when it is set the extrapolation time is reset to 0; the object stays valid |
| NetworkSync.CharacterNetworkSync.Interpolate | CharacterNetworkSync.cs:184-207 | new render state is `InterpolateStep` of the old one, which keeps the invariant: percentage in [0, 1], budget left at least 0 and never more than before |
| NetworkSync.CharacterNetworkSync.Extrapolate | CharacterNetworkSync.cs:209-213 | extrapolation time grows by the budget left, and that budget is handed to the movement controller |
| NetworkSync.CharacterNetworkSync.Update | CharacterNetworkSync.cs:160-182 | new render state and movement time are `Tick` of the old state, so the invariant holds after every tick; the animation speed is the stat speed while interpolating or extrapolating, else 0 |
| NetworkSync.CharacterNetworkSync.InstantPositionChange | CharacterNetworkSync.cs:216-219 | the rendered and authoritative positions both become p; nothing else changes |
| NetworkSync.CharacterNetworkSync.OnReceive | CharacterNetworkSync.cs:89-121 | mirrors are overwritten and the input byte is decoded; the detector takes `SetNext`'s step: the first sample is only recorded, an unchanged position clears the window, a move is appended to the bounded window and the timer and signal follow the window's averages; time and position are stored; lerping restarts |
| Queues.BoundedAppend | MovemantCheatDetection.cs:45-49 | the result is the newest `limit` entries of the old contents plus the new one, and its last entry is the new one |
| Queues.BoundedAppendFull | MovemantCheatDetection.cs:45-49 | appending to a full window drops exactly the oldest entry |
| Queues.FixedSizeQueue.Enqueue | MovemantCheatDetection.cs:45-49 | contents become the bounded append; the limit is unchanged |
| Queues.FixedSizeQueue.Clear | MovemantCheatDetection.cs:40 | contents become empty |
| MovementCheat.Totals | MovemantCheatDetection.cs:51-57 | the loop's totals are the sums of measured and stat speeds over the whole window |
| MovementCheat.ExceededByTotals | MovemantCheatDetection.cs:59-62 | the average comparison is the same as comparing the totals against THRESHOLD scaled by the window size |
| MovementCheat.WithinThresholdNotExceeded | MovemantCheatDetection.cs:51-62 | if every sample is within THRESHOLD of its stat speed, the window is not over the threshold, however long it is |
| MovementCheat.AboveThresholdExceeded | MovemantCheatDetection.cs:51-62 | if every sample is more than THRESHOLD above its stat speed, the window is over the threshold |
| MovementCheat.TimerStartsAtExcursion | MovemantCheatDetection.cs:62-66 | during an unbroken excursion the timer runs, started at the local time of the excursion's first sample |
| MovementCheat.SignalIffExcursionOutlastsCheatTime | MovemantCheatDetection.cs:62-70 | a sample in an excursion signals iff strictly more than CHEAT_TIME has passed since the excursion began, so it signals on every such sample |
| MovementCheat.NoSignalAtOrBelowThreshold | MovemantCheatDetection.cs:72-75 | a sample at or below the threshold never signals, and it resets the timer to unset with time 0 |
| MovementCheat.MovemantCheatDetection.constructor | MovemantCheatDetection.cs:25-29 | an empty window limited to 20, no baseline, and the timer unset |
| MovementCheat.MovemantCheatDetection.SetNext | MovemantCheatDetection.cs:31-80 | first call: records the baseline only. Unchanged position: clears the window, no signal. Otherwise: appends elapsed, speed and stat-speed to the bounded window and runs the timer and signal on its averages. Time and position are always stored |
| AbilityCheat.TargetCheck | AbilityCheatDetection.cs:32-47 | passes when no targeting is needed; fails on a failed range check with differential at or below -2, and on a rejected team for Unit targeting |
| AbilityCheat.RangeToleranceBoundary | AbilityCheatDetection.cs:36-38 | after a failed range predicate (and team accepted or not needed), targeting passes iff the differential is strictly above -2 |
| AbilityCheat.TeamCheckOnlyForUnits | AbilityCheatDetection.cs:40-46 | once range is accepted, targeting passes iff the team is valid, and only for Unit targeting |
| AbilityCheat.CooldownCheck | AbilityCheatDetection.cs:49-55 | passes iff not on cooldown or the cooldown left is at most 1 |
| AbilityCheat.CostCheck | AbilityCheatDetection.cs:57-63 | passes when the ability's own cost check does; otherwise iff the mana is short by at most 2 (boundary included) |
| AbilityCheat.DoCheck | AbilityCheatDetection.cs:19-30 | all three sub-checks are reported; the use is valid iff all pass, and a cheat is signalled iff it is not valid |
| AbilityCheat.NominalUseAccepted | AbilityCheatDetection.cs:19-63 | a use that passes the ability's own checks is never flagged; the tolerances only widen acceptance |
| AbilityCheat.AnyFailureSignals | AbilityCheatDetection.cs:24-28 | any failing sub-check signals a cheat |

## Left out

- Photon and Unity plumbing is not modelled: stream read/write order, `photonView.isMine`, owner checks, `Awake`, `OnLeftRoom`/`enabled`. The model is the remote (non-owner) path. Its receive half is `OnReceive`, taking the decoded stream values. The send half is `EncodeInputByte`; sending health, mana and position is transport.
- The movement and animation controllers are not part of this model (`SetMovemant`, `UpdateMove`, `UpdateMoveVector`, `RotateTowardsLookPoint`, `SetSpeed`). Neither are the stat controller or the internals of `Ability`. So the rendered position that `UpdateMove` moves during extrapolation is not changed by the model. A tick reports the time it hands to `UpdateMove` instead, and the speed it gives to `SetSpeed`.
- `Vector3.Distance` and `Vector3 ==`: distances are passed in as reals. Position equality is exact equality of real vectors. Unity's `==` is approximate.
- IEEE float behaviour is not modelled. Arithmetic is on exact reals, and the `(float)` cast of the elapsed double time is dropped. One consequence: `CooldownCheck`'s `cooldown - left + 1 >= cooldown` is stated as `left <= 1`, which holds over the reals.
- NetworkSync.LerpDuration: a speed stat of 0 is modelled as the float quotient becoming infinite, so the cap applies. A negative speed is excluded by `speed >= 0`.
- NetworkSync.CharacterNetworkSync.constructor: `maxLerpTime` and `maxExtrapolationTime` are public fields with default 0.1. Here they are constructor parameters, and `maxLerpTime > 0` is required, because the lerp divides by a duration capped at it.
- MovementCheat.MovemantCheatDetection.SetNext: requires `networkTime > prevTime` for a moving, non-first sample. The code would divide by a zero or negative elapsed time there.
- Queues.FixedSizeQueue: only its use is modelled; FixedSizeQueue's source is not part of this model. The source sets `Limit = 20` after construction; here the limit is a constructor argument.
- The `CheatDetected` delegate events are modelled as returned booleans; listener registration is not modelled.
- `MovementCheat.MovemantCheatDetection.SetNext` does not state the signal in terms of whole excursions. That is done on the pure timer functions (`TimerAfter`, `SignalIffExcursionOutlastsCheatTime`), which `SetNext`'s timer update is stated with.
