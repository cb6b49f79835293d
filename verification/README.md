# Verified model of the light firmware

A Dafny model of the parts of a Wi-Fi light's firmware that carry real state or arithmetic, with
proofs of what they are for. It follows the code branch by branch; where a comment in the code
promises more than the code does, the model follows the code and a lemma shows the difference.

| files | what they model |
|---|---|
| `Waveform`, `PwmSchedule`, `PwmTheorems` | the PWM schedule compiler: square waves in, one sorted edge table out |
| `PwmHandoff`, `PwmTear`, `PwmEngine`, `PwmPlayback`, `PwmEpoch`, `PwmOutput` | the edge player (an interrupt handler) against the one producer that compiles new tables, and what the pins show |
| `PwmTimer` | the two timer backends behind one arm-and-rebase operation |
| `LemtoneLinear`, `LemtoneClosedForm`, `LemtoneExactness`, `LemtoneWhiteLine`, `LemtoneSkew` | the closed-form colour solve: 3x3 inverse, white split, range of white levels, and where it fails |
| `LemtoneModel`, `LemtoneSolve`, `LemtoneWitness`, `LemtoneWhites`, `LemtoneTables`, `LemtoneLinearModel` | the solver around it: frozen-coefficient rounds, attempts, white anchor, two bisections, the forward model's tables, and what is found on a linear model |
| `LemtoneSnap`, `LemtoneQuantize`, `PwmDrive` | driver whites on their grid, periods and ticks, mixer, raw packets, hardware PWM |
| `LightLink`, `FallbackTimer`, `LightFallback` | the receive callback and the controller task: queue, duplicate suppression, forget flag, fallback |
| `FlashRewrite`, `Migrator`, `Crc32` | the flash migrator, its packer, and CRC-32 (section 8 of RFC 1952) |
| `Wire` | the beacon parser and its printers (one vendor-specific element, section 9.4.2.25 of IEEE Std 802.11-2020) |
| `Rollback` | the boot counter that takes an unvalidated image back, under power loss at any point |
| `Numeric`, `Bytes`, `Options` | shared arithmetic and vocabulary |

Conventions. Code that updates state in place is a class or a method with loops, each proved equal
to a function of its inputs; concurrent code is a state machine whose steps are single reads and
writes of shared variables, and its theorems quantify over every interleaving. Floating point is
`real`: in the schedule compiler the only float operations are scalings by powers of two followed by
`lroundf`, which are exact, and in the solver rounding is not the point. CRC registers and wire
words are bit vectors.

Places where the code and its comments differ, each a lemma here: a dropped reboot, configuration or
update post is not retried (`LightLink.CommandHasOneChance`, `LightLink.Dfu2HasOneChance`);
`build_dfu2` lets an empty or over-long SSID through (`Wire.Dfu2RoundTrip`, `Wire.EmptySsidIsLost`);
`publish_reqs` depends on a flag it never tests (`PwmHandoff.CompileSafeIffNothingStaged`,
`PwmTear.LostChange`); a loss of
power between switching the boot slot and marking the image leaves the guard unarmed
(`Rollback.LossBeforeMarkUnguards`), and the validation task of the image that marks it can clear the mark
before the restart (`Rollback.LateFireUnguards`, `Rollback.MarkGuardsIff`); the slot that is remembered as
known-good is one only if the image that takes the update was validated (`Rollback.MarkIsProvenIff`), and
a download by a pending image destroys it even if it fails (`Rollback.DownloadWhilePending`); more light
can lengthen the period of a channel that was dark (`LemtoneQuantize.BrighterIsFaster`); the closed form misses its target when
a white share leaves [0, 1] (`LemtoneExactness.ExactIffShareInUnit`), which takes a white with a negative
XYZ total, allowed by the model type and found in no colour table of the repository.

## Model

| member | source | states |
|---|---|---|
| `PwmSchedule.Compile` | main/pwm_schedule.c:38-172 | never overflows when every active exponent is in the configured range; on success the table is the one a tick-by-tick scan of the square waves writes, with its length; a failure leaves count and length alone |
| `PwmTheorems.TablePlaysWaves` | main/pwm_schedule.c:92-172 | for every tick and channel, the last edge at or before the tick holds the channel high exactly when its wave is high there, that is, within one of the pulses the request asks for |
| `PwmTheorems.HighIffInPulse` | main/pwm_schedule.c:92-122 | the wave is high exactly within the pulses that begin at the tick nearest to (phase + k) 2^n, for some whole k, and last the ticks nearest to the clamped duty's share of 2^n |
| `PwmTheorems.TableEdgesArePulseEnds` | main/pwm_schedule.c:122-169 | wherever a channel changes in the compiled table, one of its pulses begins or ends |
| `PwmTheorems.TableWellFormed` | main/pwm_schedule.c:150-169 | offsets start at 0, strictly increase and stay below the length, and every entry changes the state |
| `PwmTheorems.TableIsCanonical` | main/pwm_schedule.c:146-169 | any table with those two properties is the compiled one, so the order a sort gives equal offsets cannot show |
| `PwmTheorems.EntriesAreToggleOffsets` | main/pwm_schedule.c:150-169 | the entries are one for t = 0 and one per distinct toggle offset, none for anything else |
| `PwmSchedule.OneTogglePerOffset` | main/pwm_schedule.c:108-141 | no channel has two toggles at one offset |
| `PwmSchedule.WaveStep` | main/pwm_schedule.c:108-141 | a toggle always flips its channel, and a channel without a toggle at a tick does not change there |
| `PwmSchedule.RepeatBound` | main/pwm_schedule.h:62-68 | in the configured range each channel adds at most 128 toggles and the longest only 2, which is what the buffer size counts on |
| `PwmTheorems.BlockHighTicks` | main/pwm_schedule.c:91-127 | every window of one period, wherever it starts, is high for exactly the channel's on-ticks |
| `PwmTheorems.TableWindow` | main/pwm_schedule.c:91-172 | so is every such window of the compiled table |
| `PwmTheorems.RepeatedTablePlaysWaves` | main/pwm_output.c:156-178 | played over and over, the table is each channel's square wave, pulse by pulse, at every tick, across all wraps |
| `PwmTheorems.RepeatedWindow` | main/pwm_output.c:156-178 | every window of one period, whatever wraps it crosses, is high for exactly the channel's on-ticks |
| `PwmTheorems.TableConservesOnTime` | main/pwm_schedule.c:91-172 | over a whole schedule an active channel is high on_ticks times L / 2^n ticks |
| `PwmHandoff.StepKeepsInv` | main/pwm_output.c:142-190 | each disciplined step of player or producer keeps the hand-off invariant |
| `PwmHandoff.PlaybackIsWholeCycles` | main/pwm_output.c:142-190 | over every interleaving the applied edges are whole cycles of the published tables, in order, none skipped, plus the cycle in progress |
| `PwmHandoff.SkipLosesNothing` | main/pwm_output.c:275-320 | whenever the producer is idle, the table that plays from the next wrap on is what the last requests compile to, so skipping equal requests loses nothing |
| `PwmHandoff.UninterruptedPublish` | main/pwm_output.c:298-320 | a publish that no interrupt comes between ends idle, its requests remembered, its table held whole by the idle buffer and staged, the rest of the player and of the history untouched |
| `PwmHandoff.CompileSafeIffNothingStaged` | main/pwm_output.c:291-320 | starting a compile is safe in every continuation if and only if no schedule is staged |
| `PwmHandoff.TornCycle` | main/pwm_output.c:291-320 | without that rule some interleaving plays the first entry of the new table followed by the second of the staged one |
| `PwmTear.DarkCycle` | main/pwm_output.c:291-320 | concretely, from start-up: with two compiled programs that both light a channel for half of every cycle, a publish while the other is staged lets a whole cycle pass in the dark |
| `PwmTear.LostChange` | main/pwm_output.c:291-320 | without that rule, from every state with a schedule staged, some interleaving ends with the producer idle, nothing staged, the new requests remembered as published and the old program in play |
| `PwmTear.StuckForGood` | main/pwm_output.c:298-301 | whatever happens from there, until something else is asked for the old program keeps playing and the new requests are skipped as a repeat |
| `PwmTear.StaysLit` | main/pwm_output.c:291-320 | concretely, from start-up: asked to go dark, the light keeps playing a program that is not what dark compiles to |
| `PwmPlayback.Timeline` | main/pwm_output.c:142-190 | over every run from an on-time state, the next edge is due at start + lengths of the finished cycles + its offset + slip, and slip never decreases |
| `PwmPlayback.TimelineFromStart` | main/pwm_output.c:142-190 | so it is from start-up on, for whatever programs the compiler makes and in whatever order handler, producer and arms run |
| `PwmPlayback.SlipOnlyWhenLate` | main/port/pwm_timer.h:21-29 | slip changes exactly when an arm finds less than the minimum left or stops the counter |
| `PwmPlayback.FirstArmOnTime` | main/pwm_output.c:252-270 | the first arm starts that timeline with zero slip |
| `PwmOutput.LightFollowsWaves` | main/pwm_output.c:142-190 | timeline, tables and pins joined: after any run from start-up, from the last applied edge until the next is due, each engine pin is high at the tick due exactly when its channel's square wave in the program in play is high there |
| `PwmOutput.HandlerDrivesTrace` | main/pwm_output.c:142-190 | an invocation of any number of passes leaves player and pins as that many steps of the interleaved system do |
| `PwmEngine.Engine.Isr` | main/pwm_output.c:142-190 | one invocation applies one to nine edges, each at the first timer reading at or past its target or else at the 512th, goes on exactly while the next edge is soon and the cap of nine not reached, and its new state is that many player steps followed by one arm |
| `PwmEngine.DueIsExact` | main/pwm_output.c:150-153 | the signed 32-bit test that ends the spin is right about absolute times less than 2^31 ticks apart, in any epoch |
| `PwmEngine.Engine.FirstArm` | main/pwm_output.c:252-270 | shows the entry for t = 0, aims at the next edge or the wrap, starts the engine; buffers and flags stay |
| `PwmEngine.Engine.Init` | main/pwm_output.c:393-430 | engine pins cleared, flags reset, the default requests compiled whole into buffer 0 and remembered, their t = 0 level driven; not running yet |
| `PwmEngine.FirstArmStarts` | main/pwm_output.c:383-391 | the first arm after that puts engine and clock in the initial state that the theorems about whole runs start from |
| `PwmDrive.DefaultAlwaysCompiles` | main/pwm_output.c:238-247 | the requests for any colour on any board are acceptable and in the configured range, so the start-up compile cannot fail |
| `PwmEngine.Engine.Publish` | main/pwm_output.c:298-320 | running or not, staged schedule or not: equal requests change nothing; others are compiled whole into the idle buffer and staged, or before the engine runs into the active one and started; a compile fails only outside the configured range and then leaves everything but that buffer's entries alone |
| `PwmEngine.EdgeTracksClock` | main/pwm_output.c:156-178 | one pass of the handler is one step of the interleaved system, its 32-bit target the low word of the absolute one |
| `PwmEngine.ArmTracksClock` | main/pwm_output.c:188-189 | arming keeps that word in step in either backend's epoch |
| `PwmEpoch.WordTracksClock` | main/pwm_output.c:142-190 | over every run of handler, producer and arms, each arm within 2^31 ticks of its target, the 32-bit word is the low word of the absolute target in the current epoch, on either backend |
| `PwmEpoch.FirstArmInStep` | main/pwm_output.c:252-270 | the word the first arm is given starts such a run |
| `PwmEpoch.TestIsTrueToSchedule` | main/pwm_output.c:142-190 | so from start-up on a reading within 2^31 ticks passes the handler's test if and only if the edge is due by the schedule: start, finished cycles, offset and slip |
| `PwmEngine.PinsFollowState` | main/pwm_output.c:194-210 | whatever was driven before, engine pins show the state byte and hardware channels' pins are left alone |
| `PwmTimer.ArmsRefineReference` | main/port/pwm_timer.h:21-29 | within 2^31 ticks of the target both backends turn it into max(target, now + minimum + ahead) |
| `PwmTimer.BackendsAgree` | main/port/pwm_timer.h:21-29 | over any sequence of edges and arms both backends' words are the low 32 bits of one absolute target, each in its own epoch |
| `PwmTimer.Systimer.ArmRebase` | main/port/esp32c3/pwm_timer_systimer.h:58-82 | the compare lies at least the minimum ahead of the reading, and a latch that is set afterwards belongs to the new compare |
| `PwmTimer.Wdev.ArmRebase` | main/port/esp8266/pwm_timer_wdev.h:44-51 | the counter restarts at zero, the relative compare is at least the minimum, the result is the target in the new epoch |
| `LemtoneLinear.InvRgbIsInverse` | lemtone/lemtone.c:191-208 | the matrix inv_rgb writes out is a left and a right inverse of the r, g, b primaries |
| `LemtoneLinear.SolvesRgb` | lemtone/lemtone.c:191-208 | its duties make exactly the asked light |
| `LemtoneLinear.RecoversRgb` | lemtone/lemtone.c:191-208 | and no other r, g, b duties make that light |
| `LemtoneClosedForm.RunClosedForm` | lemtone/lemtone.c:214-253 | the loop over r, g, b computes the specified interval and duties, or refuses |
| `LemtoneClosedForm.LevelsExact` | lemtone/lemtone.c:229-246 | with no tiny coefficient the interval [lo, hi] is exactly the set of white levels that keep every duty and the white sum within their caps |
| `LemtoneClosedForm.LevelsComplete` | lemtone/lemtone.c:229-246 | tiny coefficients or not, no legal white level is ever ruled out |
| `LemtoneExactness.ClosedFormExact` | lemtone/lemtone.c:210-253 | at every fidelity in [0, 1] the duties lie in range, respect the white sum, keep the white split and give exactly the target |
| `LemtoneExactness.ClosedFormComplete` | lemtone/lemtone.c:210-253 | when it refuses a non-singular matrix, no legal duties on the white split make the target |
| `LemtoneExactness.MakeableIffInterval` | lemtone/lemtone.c:229-246 | a target can be made on the split if and only if lo <= hi |
| `LemtoneExactness.FidelitySpansAll` | lemtone/lemtone.c:210-213 | every legal way of making the target on the split is the answer at some fidelity |
| `LemtoneExactness.FidelityOrdersWhites` | lemtone/lemtone.c:210-213 | fidelity 0 uses the least white with which the target can be made, 1 the most, and more of it never less |
| `LemtoneExactness.ExactIffShareInUnit` | lemtone/lemtone.c:181-188 | with no sign assumption on the primaries, an accepted target is made exactly if and only if the white share is in [0, 1] or the whites stay off |
| `LemtoneSkew.SkewedWhitesMiss` | lemtone/lemtone.c:181-188 | an input on the failing side: a warm white with negative total gives share 1.5, the accepted duties miss the target, and with a cap on ww + cw they exceed it |
| `LemtoneExactness.ShareInUnit` | lemtone/lemtone.c:181-188 | non-negative white totals put the share in [0, 1] |
| `LemtoneWhiteLine.BetaIsNearest` | lemtone/lemtone.c:173-179 | the projection is the point of the segment between the two whites that lies nearest to the colour |
| `LemtoneWhiteLine.MixOnLine` | lemtone/lemtone.c:181-188 | whites mixed by the duty share land at exactly that position between their chromaticities |
| `LemtoneWhiteLine.ShareIsNearest` | lemtone/lemtone.c:216-222 | so the closed form's split makes the white nearest to the target's chromaticity |
| `LemtoneWhiteLine.AnchorIsNearest` | lemtone/lemtone.c:366-384 | and so does the split of the anchor; for a colour without luminance the point is sought in the OKLab plane |
| `LemtoneWhites.ClosedFormKeepsSum` | lemtone/lemtone.c:229-253 | with a share in [0, 1], accepted duties keep ww + cw within its cap, plus the tolerance for an interval that is just empty |
| `LemtoneModel.ForwardIsLocalLight` | lemtone/lemtone.c:106-115 | the forward model is the sum of d_i P_i for the local primaries with sag, although it skips dark channels |
| `LemtoneModel.ColourDependsOn` | lemtone/lemtone.c:82-86 | a driver white's colour depends on the pair's sum alone, any other channel's on its own duty; a channel alone reads its table at its own duty either way |
| `LemtoneModel.TargetColour` | lemtone/lemtone.c:327-331 | a target exists exactly for a colour of real luminance, and then has its chromaticity and the asked luminance, in all three components |
| `LemtoneSolve.RunRounds` | lemtone/lemtone.c:268-288 | the frozen-coefficient loop, with what it counts and returns |
| `LemtoneSolve.RunAttempt` | lemtone/lemtone.c:304-320 | the two phases and the restart after an infeasible first one |
| `LemtoneSolve.RunWhiteOnly` | lemtone/lemtone.c:341-364 | the luminance ratio iteration |
| `LemtoneSolve.RunSolveFree` | lemtone/lemtone.c:386-445 | the mode decision and both bisections |
| `LemtoneWitness.WhiteOnlyIsLegal` | lemtone/lemtone.c:338-364 | the whites an unreachable colour moves toward are legal, on their split, with r, g, b off, and at full level if that is not more than asked |
| `LemtoneWitness.BisectBrackets` | lemtone/lemtone.c:418-441 | n steps leave a bracket 2^-n as wide whose lower end succeeded with the kept duties and whose upper end failed |
| `LemtoneWitness.RoundsHit` | lemtone/lemtone.c:268-288 | converged rounds with sag put every XYZ component of the full model within the tolerance |
| `LemtoneWitness.SolveAnswers` | lemtone/lemtone.c:386-445 | EXACT, DESAT and CLAMP each carry their witness (all three XYZ components within the tolerance of the asked, the desaturated or the anchor's chromaticity at the stated lumens, and the failed point 2^-10 or 2^-12 further on), OFF means no lumens, and the evaluations stay within 226 or 262 |
| `LemtoneLinearModel.AttemptReaches` | lemtone/lemtone.c:304-320 | on a model whose primaries do not depend on the duties, an attempt makes every target that can be made on the split, without error, and fails where the closed form refuses |
| `LemtoneLinearModel.SolvesWhatCanBeMade` | lemtone/lemtone.c:386-412 | there the answer to every such request is EXACT, with duties whose light is the asked colour at the asked lumens |
| `LemtoneLinearModel.WhiteOnlyLands` | lemtone/lemtone.c:338-364 | there the whites alone give the asked luminance, or all they can if that is less |
| `LemtoneLinearModel.AnchorIsWhiteLight` | lemtone/lemtone.c:366-384 | there the anchor is the chromaticity of a light the whites make, at the asked luminance or all they can, at the point of the white line nearest to the colour |
| `LemtoneLinearModel.CompletesExactly` | lemtone/lemtone.c:452-481 | there r, g, b complete given whites without error whenever they can, at three evaluations at most |
| `LemtoneWhites.SolveKeepsSum` | lemtone/lemtone.c:386-445 | in every mode, for every request, the answer keeps ww + cw within its cap plus that tolerance, if both whites have non-negative XYZ totals at every duty within the duty cap |
| `LemtoneTables.RunUnitXyz` | lemtone/lemtone.c:63-80 | the scan ends at the segment that holds the duty, never divides by an empty one, and interpolates there |
| `LemtoneTables.UnitInterpolates` | lemtone/lemtone.c:63-80 | between two knots each component moves in proportion to the duty |
| `LemtoneTables.InitialIsLocal` | lemtone/lemtone.c:164-169 | where colours depend on each channel's own duty, the initial primaries are the local ones with every duty at 0.4 and the sag left out |
| `LemtoneTables.RunInteraction` | lemtone/lemtone.c:89-104 | the nested loops over one running index compute 1 + feats . theta with the features in the order the header lists |
| `LemtoneTables.UnitMakesLight` | lemtone/lemtone.c:63-80 | a table without negative XYZ totals interpolates to none, inside and outside its knots |
| `LemtoneTables.WhitesGiveLight` | lemtone/lemtone.c:255-265 | if the negative coefficients of each white add up to at most 1, both whites give light at every duty in the unit cube, sag included |
| `LemtoneTables.PanelKeepsSum` | lemtone/lemtone_model_panel.c:152-167 | so for the panel, the one shipped model with such a cap, every answer has ww + cw <= 1 plus the tolerance, its white tables having no negative total |
| `LemtoneSnap.RunSnap` | lemtone/lemtone.c:484-521 | the candidate loop with its skips and its early exit |
| `LemtoneSnap.PickFrom` | lemtone/lemtone.c:503-519 | the choice is the first candidate within tolerance, else the one that misses least, the earlier of two that miss alike |
| `LemtoneSnap.CandidatesSurround` | lemtone/lemtone.c:494-502 | the first two candidates are the usable DIM steps on either side of the wanted total, the nearer one first; the third is off |
| `LemtoneSnap.JobIsNear` | lemtone/lemtone.c:484-500 | what is snapped is the light of the unsnapped duties, their white total and their warm fraction, that one to half a step |
| `LemtoneSnap.SnapTakesFirst` | lemtone/lemtone.c:484-521 | of the candidates under the cap the first is taken with which r, g, b keep the unsnapped light within the tolerance, and if there is none, one that misses it least |
| `LemtoneSnap.SnapOnGrid` | lemtone/lemtone.c:484-521 | a lit pair ends on the grid, its DIM zero or at least the driver's minimum and within the cap, r, g, b still within their cap, some candidate always chosen, at most 40 evaluations |
| `LemtoneSnap.RunSolve` | lemtone/lemtone.c:523-529 | the whole solve is the free solve followed by the snap on driver boards |
| `LemtoneSnap.SolveCost` | lemtone/lemtone.c:523-529 | the whole solve spends at most 266 evaluations, so the 16-bit counter never wraps |
| `LemtoneQuantize.RunPeriods` | lemtone/lemtone.c:533-551 | each lit channel gets the shortest period in its range with enough ticks, or the brightness cap; a dark one gets the minimum |
| `LemtoneQuantize.BrighterIsFaster` | lemtone/lemtone.c:533-551 | where no dimmer tier has a shorter cap, more of a channel or more lumens means no longer a period if and only if the channel was lit before, or is still dark, or the shortest period is enough for it or the only one allowed |
| `LemtoneQuantize.LumensShortenIffCapsAscend` | lemtone/lemtone.c:535-544 | with tiers by descending lumens, more lumens never raise the cap if and only if no dimmer tier has a shorter cap than a brighter one |
| `LemtoneQuantize.DefaultTiersInOrder` | lemtone/lemtone.c:34-40 | the default tiers meet both conditions |
| `LemtoneQuantize.RunQuantize` | lemtone/lemtone.c:585-603 | ticks, command and effective duty of every channel, with the white entries replaced on driver boards |
| `LemtoneQuantize.TicksKeepDuty` | lemtone/lemtone.c:585-603 | ticks are 0 for under half a tick of light or of pulse, the whole number nearest to what the pulse leaves to do, or the cap where that is more, all by the request alone; one that fits is met to half a tick of light |
| `LemtoneQuantize.PairSurvives` | lemtone/lemtone.c:566-583 | a pair on the grid under the cap quantizes to its own DIM and CCT steps |
| `LemtoneQuantize.PairIsNearest` | lemtone/lemtone.c:566-583 | any pair, on the grid or off, gets the DIM step nearest to its total, or the last one under the cap, and the CCT step nearest to its warm fraction |
| `PwmDrive.Mix` | main/pwm_mix.c:73-110 | every physical channel gets its mixed value |
| `PwmDrive.RawAlwaysCompiles` | main/pwm_output.c:350-381 | whatever a raw packet holds, the compiler gets acceptable requests in the configured range |
| `PwmDrive.RawPacketPlays` | main/pwm_output.c:350-381 | at every tick of repeated playing a channel is high exactly within the pulses of its mixed duty at its board's phase in degrees, in its own period if that is locked and in the packet's, brought into range, if not; hardware channels stay low |
| `PwmDrive.ColourPlays` | main/pwm_output.c:213-247 | the same for default and curve-mapped colours, each channel in its own period |
| `PwmDrive.SolvedLightReachesThePins` | main/controller.c:70-80 | from solver duties through periods, ticks, raw packet and table, a direct channel is high exactly its quantized ticks in every period, and those are the ticks its duty asks for |
| `PwmDrive.DriverRecovers` | main/pwm_mix.c:84-109 | mixer and 12-bit rounding turn a logical pair back into its DIM and CCT steps |
| `PwmDrive.CountsAreNearest` | main/port/esp32c3/pwm_hw_ledc.c:58-63 | any duty gets the counts nearest to its share of full scale |
| `PwmDrive.WhitesReachTheDriver` | main/port/esp32c3/pwm_hw_ledc.c:58-63 | a pair on the grid reaches the hardware inputs at exactly its DIM step and warm fraction |
| `PwmDrive.SolveReachesTheDriver` | lemtone/lemtone.c:523-529 | for every colour and brightness whose lumens are met, both hardware inputs run at the best DIM step for the free solve's whites and at its warm fraction, DIM off or at least the driver's minimum and under the cap |
| `PwmDrive.HwPwm.Set` | main/port/esp32c3/pwm_hw_ledc.c:58-72 | only accepted settings are remembered, and a write is skipped exactly when it would repeat the remembered one |
| `LightLink.StepKeepsInv` | main/sniffer.c:138-180 | every step of callback or controller keeps what duplicate suppression relies on |
| `LightLink.NeverStranded` | main/sniffer.c:138-180 | with the callback idle, a remembered word and no forget request, the latest colour queued, in hand or shown is that word, and the light is not left at the default with nothing queued; the queue holds at most 8 |
| `LightLink.FrameIsShown` | main/sniffer.c:100-181 | with both sides idle and nothing queued, whatever is remembered and whether or not a forget request is up, a colour frame is on the light after the callback's pass and three steps of the controller |
| `LightLink.RestingShowsDefault` | main/controller.c:139-151 | over every interleaving from start-up, through every fallback and every change of the configuration, a light at rest shows the default colour configured by then |
| `LightLink.ForgottenRepeatIsPosted` | main/controller.c:200-214 | a frame that meets the forget flag is never dropped as a repeat: it is queued and remembered, or the queue is full |
| `LightLink.CommandHasOneChance` | main/sniffer.c:118-136 | a command is queued exactly when there is room on first sighting; its number is spent either way and no retransmission is ever queued |
| `LightLink.Dfu2HasOneChance` | main/sniffer.c:52-78 | the same for an update request and its latch |
| `LightLink.Sniffer.HandleFrame` | main/sniffer.c:100-181 | for every valid frame, including those with nothing for this light, the callback run to completion is its steps in order |
| `FallbackTimer.TimerRefinesReference` | main/controller.c:122-216 | over whole runs the 32-bit timer does what one that never wraps does, and a live light was refreshed less than the fallback time ago after every wake |
| `FallbackTimer.RefreshedStaysLive` | main/controller.c:166-214 | if consecutive refreshes are handled, and the run is checked for the last time, less than every fallback time in force after the one before, the light is live after every wake from its first colour on, whatever the tick counter does |
| `FallbackTimer.SilentSourceReverts` | main/controller.c:196-214 | after a source goes silent the light is at the default if and only if some later wake was checked at or past the deadline |
| `FallbackTimer.SilentRevertsIff` | main/controller.c:203-206 | with no assumption on timing, a silent stretch reverts if and only if some check finds the wrapped time since the last refresh at or past the fallback time, and changes nothing else |
| `FallbackTimer.KeepAlivesDoNotRevive` | main/controller.c:172-178 | keep-alives alone never bring a resting light back |
| `FallbackTimer.CheckIsExact` | main/controller.c:203-206 | the wrapped comparison is right exactly up to whole turns of the counter |
| `FallbackTimer.WrapHidesSilence` | main/controller.c:203-206 | a run whose silence the wrapped time hides: the room below the wrap is needed |
| `LightFallback.LightFollowsTimer` | main/controller.c:122-216 | over every run of callback and controller with their clock, between two wakes the light is the default colour if the timer of `FallbackTimer` has run out over the wakes so far, else the last colour received |
| `LightFallback.SilenceShowsDefault` | main/controller.c:199-215 | a source that goes silent: the light is the default once a check was at or past the deadline, and the last colour until then |
| `LightFallback.Controller.Turn` | main/controller.c:126-215 | one turn of the task's loop is its steps in order, light, timer, configuration, forget flag and fallback count included |
| `LightFallback.Controller.Loop` | main/controller.c:122-216 | the loop from its start, whatever messages come in, keeps variables and light in step with the timer over its wakes |
| `FlashRewrite.Flash.Migrate` | migrator/src/flash_rewrite.cpp:85-119 | success means low flash is the payload and red that some driver call failed or garbled a sector, so a driver that does as told always gets there; the payload is never touched, later sectors are right before the bootloader is written, and the boot vector comes last |
| `FlashRewrite.Flash.VerifySector` | migrator/src/flash_rewrite.cpp:79-83 | a passed verification means the sectors are equal |
| `Crc32.RunStream` | migrator/src/main.cpp:14-22 | the byte and bit loops compute the specified register |
| `Crc32.PolynomialIsCrc32` | migrator/src/main.cpp:14-22 | the constant is the CRC-32 polynomial, coefficient by coefficient |
| `Crc32.CheckValue` | migrator/src/main.cpp:14-22 | start value, complement and bit order give the published check value 0xCBF43926 for the nine digits |
| `Crc32.AnyChunking` | migrator/src/main.cpp:87-96 | any chunking gives the one-pass register |
| `Crc32.FeedByteInjective` | migrator/src/main.cpp:14-22 | a byte step loses nothing of the state or of the byte |
| `Crc32.StreamIsSerial` | migrator/src/main.cpp:14-22 | the byte-wise register equals the bit-serial one |
| `Crc32.BurstChangesCrc` | migrator/src/main.cpp:14-22 | two different messages of one length that agree outside one 32-bit window have different CRCs |
| `Migrator.Check` | migrator/src/main.cpp:71-96 | the checks in the device's order, the payload streamed in 4 KB buffers, with a verdict for a failed read of header or payload |
| `Migrator.HeaderRoundTrip` | migrator/tools/pack_migrator.py:68-72 | every field of a built header reads back, its CRC included |
| `Migrator.Assemble` | migrator/tools/pack_migrator.py:52-65 | the image is whole sectors; each byte comes from the last file that covers it, else erased |
| `Migrator.PartsSurvive` | migrator/tools/pack_migrator.py:62-65 | files that do not overlap are in the image whole |
| `Migrator.GuardSuffices` | migrator/tools/pack_migrator.py:141-148 | the self-clobber guard alone implies the device's length bound, the staging cap and that low flash ends before header and payload |
| `Migrator.WholeSectors` | migrator/tools/pack_migrator.py:41-42 | both sides round up to as many whole sectors as it takes and no more |
| `Migrator.PackedIsAccepted` | migrator/src/main.cpp:71-96 | an image the packer lets through and that arrives whole is accepted if and only if no read fails |
| `Migrator.BurstIsRefused` | migrator/src/main.cpp:87-96 | one hit by a burst of up to 32 bits is refused, for its CRC if it can be read |
| `Migrator.Run` | migrator/src/main.cpp:54-102 | from validation to the last sector: refused and untouched, migrated with low flash equal to the payload, or halted, and that only after a failed or garbled driver call |
| `Migrator.UploadMigrates` | migrator/tools/pack_migrator.py:141-148 | an image the packer lets through is refused only if a read fails, and then nothing is touched; otherwise it ends up in low flash, unless a driver call failed or garbled a sector, and success is never reported wrongly |
| `Wire.FrameUnwraps` | main/protocol.c:370-424 | a frame around a packet, with or without FCS, unwraps to that packet |
| `Wire.UnwrapsOnlyFrames` | main/protocol.c:370-424 | the parser unwraps nothing else |
| `Wire.Dfu2RoundTrip` | tools/send_update.py:133-172 | a request the tool builds gives exactly the addressed ids of the addressed device type its fields back, if and only if the SSID has 1 to 32 bytes; others see nothing for them |
| `Wire.EmptySsidIsLost` | tools/send_update.py:160-172 | the tool builds a request with an empty SSID that every addressed device rejects |
| `Wire.AcceptedReencodes` | main/protocol.c:308-368 | any accepted request re-encodes to a prefix of its packet |
| `Wire.LemtoneRoundTrip` | main/protocol.c:276-302 | every table of up to 11 entries gives each id the first entry that carries it, or nothing |
| `Wire.ColourRoundTrip` | main/protocol.c:114-133 | the same for a table of colours and its five levels |
| `Wire.PreciseRoundTrip` | main/protocol.c:197-221 | five floats reach the light they name, byte for byte, and no other |
| `Wire.RawRoundTrip` | main/protocol.c:228-258 | so do five raw duties and their periods |
| `Wire.CommandRoundTrip` | main/protocol.c:140-193 | every light learns a command's number, those in the range obey it, and a value longer than fits is not written |
| `Wire.FirstForIsFirst` | main/protocol.c:51-65 | the entry scan returns the first match and nothing before it matches |
| `Wire.Scan` | main/protocol.c:51-65 | the loop over a table finds the entry that the parser's meaning asks for, or none |
| `Wire.UnpackPack` | main/selftest.c:121-129 | the 40-bit word gives back its four codes |
| `Wire.PackUnpack` | main/protocol.c:261-273 | and every 40-bit word is the packing of its codes |
| `Wire.CodesSurvive` | main/selftest.c:121-129 | a decoded a, b or fidelity encodes to the code it came from |
| `Wire.AbWithinHalfStep` | main/selftest.c:119-129 | encoding a chromaticity in range moves it by at most half a step |
| `Wire.FWithinHalfStep` | main/selftest.c:119-129 | and a fidelity by at most half of its step |
| `Wire.OutsideGetsTheEnd` | main/selftest.c:119-129 | what lies outside a code's range gets the nearest end |
| `Wire.FillFrame` | main/selftest.c:132-150 | the buffer holds the framed table, element length included |
| `Rollback.CounterStaysBelow` | main/dfu2.c:460-494 | over every run with power loss the boot count stays below the threshold while an image is pending |
| `Rollback.UnvalidatedStartsTwice` | main/dfu2.c:460-494 | once the validation task of the image that marked it is done, an image that is never validated reaches normal operation at most twice, and once the guard is clear the boot slot is the one that worked |
| `Rollback.LateFireUnguards` | main/dfu2.c:446-458 | the failing run: that task fires between mark and restart, and the new image starts as often as it is powered on, never validated, the guard clear |
| `Rollback.MarkGuardsIff` | main/dfu2.c:350-352 | the mark keeps an unvalidated image to two starts in every run if and only if that task is no longer armed when the mark is committed |
| `Rollback.RevertSurvivesLoss` | main/dfu2.c:474-489 | a due revert cut short any number of times only moves toward the same persisted end, as long as no update is accepted |
| `Rollback.RevertCompletes` | main/dfu2.c:474-489 | and three undisturbed steps from power-on finish it |
| `Rollback.NoSlotNoRevert` | main/dfu2.c:474-489 | without the previous slot the guard is cleared and the image stays |
| `Rollback.LossBeforeMarkUnguards` | main/dfu2.c:350-352 | power lost between slot switch and mark: the new image starts as often as it is powered on |
| `Rollback.PrevIsProven` | main/dfu2.c:174-190 | over every run in which only validated images begin downloads, a pending guard goes back to a slot whose image has been validated since a download last touched it |
| `Rollback.MarkIsProvenIff` | main/dfu2.c:181-184 | and only then: the slot an update remembers holds a validated image if and only if the running image was validated |
| `Rollback.DownloadWhilePending` | main/dfu2.c:240-288 | a download begun before validation overwrites the remembered slot, and if it fails or loses power the guard is pending on a slot without a validated image |
| `Rollback.FailedUpdateRestarts` | main/dfu2.c:375-393 | an update that fails, before or during the download, ends in a restart with boot slot and guard as they were |
| `Rollback.UpdateWhilePending` | main/dfu2.c:174-190 | an update accepted before validation overwrites the only validated image and remembers the unvalidated one |
| `Rollback.Device.CheckOnBoot` | main/dfu2.c:460-494 | the boot check is its persisted steps in order, and a start arms the validation task |
| `Rollback.Device.MarkPending` | main/dfu2.c:174-190 | marking a fresh image is the step that arms the guard |
| `Rollback.Device.ValidateImage` | main/dfu2.c:446-458 | in whatever phase its delay runs out, validation is the step that clears the guard, once per boot |

## Left out

- State bytes, packed edges and the 256-entry pin tables: a state is the set of high channels, an edge a pair, a pin mask a set computed from it.
- `PwmSchedule.SortByOffset`: an insertion sort stands for `qsort`; `PwmTheorems.TableIsCanonical` is why the choice cannot matter.
- Float rounding, NaN and infinity: reals throughout. `LemtoneClosedForm.BetaOn` takes 0 where two coincident white points would divide zero by zero.
- `LemtoneModel.Model`: colour, interaction and the OKLab conversions are arbitrary functions, so the solver theorems hold for every forward model; `LemtoneTables` gives the first two, the conversions and the numbers of the colour tables are left out.
- Convergence on models that are not linear, and colour accuracy there beyond the solver's own tolerance.
- `LemtoneExactness.ClosedFormExact`: assumes no r, g, b coefficient under 1e-12 and lo <= hi; inside the code's two tolerances the duties are clamped and only approximate.
- `FallbackTimer.Timely`: where `TimerRefinesReference` and `SilentSourceReverts` assume it, the gap to the next wake and the fallback time together stay below 2^32 ticks; the conversion of milliseconds to ticks is not part of the model.
- `LightLink.Sniffer`: radio filtering, parsing and the statistics counters; a frame arrives parsed. The controller's restart, and the update job it hands over to, end the model's controller.
- `LightFallback.Controller`: of the configuration only the default colour, numbered; a channel change re-tunes a radio that is not part of this model.
- `Wire.Parse`: float channels stay as wire bytes, lumens codes are not turned into lumens, and the legacy 0x01 packet is not compiled in. Text arguments of the sender (ranges, addresses, hex) arrive as values.
- `FlashRewrite.Flash.Read`: a read that reports no error returns the sector's contents, during validation too, and rounding a length up to whole words is not modelled.
- `FlashRewrite.Flash.Migrate`: LEDs, watchdog, cache and interrupt registers.
- `Rollback.Step`: each NVS commit is atomic, also against a concurrent one, and NVS can be opened; the end of the boot check and the arming of the validation task are one step; delays are not timed, so validation may come at any point of its boot; the download's protocol, its SHA-256 check and the panel's native rollback are foreign.
- Perceptual duty curve, power cap, configuration store, Wi-Fi, HTTP pages and command line parsing: no state worth a proof, or foreign code.
