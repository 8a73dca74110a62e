# Coffin defence: the game-state machine of `PlayMode`

The game has nine coffins in a 3×3 grid, one cross per coffin. Each round lasts
90 seconds. The player selects one coffin at a time with W/A/S/D. The selected
coffin is *covered*, so its `isClosed` flag is true. Every other coffin is exposed.
Crosses are set moving at random, at an interval that shrinks in the last minute.
A moving cross travels from its base depth down past its target depth and back.
When it is past the target above an exposed coffin that still has a life, it
takes one of that coffin's three lives. After the clock runs out, the round
ends and the score is 100 per life left plus 300 per coffin with a life left.

The project models:

- the state fields and the two tables of `PlayMode`, as a class with two arrays of length 9;
- key handling (`handle_event`);
- every phase of the per-frame `update`;
- the text of the overlay drawn in `draw`.

The modules are:

- `Pieces`: the `Coffin` and `Cross` records, the `uint8_t` counters, one step of a cross, the strike test, and the redraw loop that picks the next attacker.
- `Grid`: key navigation over the grid.
- `Round`: the whole game state as a value (`Game`). It has one function per phase of an update and `Update` for a whole frame. It also defines the round's invariant (`Invariant`) and the attack-interval bound (`Ramp`).
- `RoundFacts`: what the phases guarantee. Every update keeps the invariant. The round ends, and its score follows the formula. The attack interval never grows.
- `Hud`: the `MM:SS` clock, the score text, the title and the explanation line.
- `Play`: the class `PlayMode`. Its fields mirror the game-state fields of the header. Each method is proved to change the object exactly as the matching `Round` function says. So every property proved in `RoundFacts` holds of the object as well.

How inputs outside the game are modelled:

- Random draws are a parameter. The generator yields a sequence of values, and `draws` is that sequence.
- Each cross's base depth comes from the scene. It is a constructor parameter.
- Timers and depths are `real`.

Some behaviour of the code differs from what one might expect of the game; the model follows the code:

- **Zero elapsed time still changes the state on every update of a running round in which a cross is moving.** One might expect a zero-elapsed update to be a no-op. In the code, on every update of a running round (after the intro, before the clock has run out) each moving cross moves a fixed step, whatever the elapsed time. `RoundFacts.ZeroElapsedNotIdle` proves that such an update with `elapsed == 0` changes every moving cross. With no cross moving and no spawn or selection change due, a zero-elapsed update of a running round can leave the state as it is. Intro updates, the end tick and updates after the end return before the cross loop and leave the crosses as they are.
- **The selected coffin is covered.** The selected coffin is not the "open" one: it is the one with `isClosed == true`. Strikes need `!isClosed`.
- **The end uncovers every coffin.** The end of a round does not close the current coffin: the code sets its `isClosed` to false, so no coffin is covered after the end (`RoundFacts.EndTick`).
- **The end comes one tick late.** The end branch runs on the tick *after* `remain_time` has dropped to zero or below, not on the tick where it crosses.
- **The draw can leave the table.** The spawn does not simply draw one of the 9 cells until it finds an idle one. The code draws from `0..crosses.size()` inclusive, so 9 can come out, and `crosses[9]` is out of bounds. The redraw loop never exits if all nine crosses are moving.

The model does not fix either hazard. `Round.Allowed`, a precondition of `Update`, states what the draws must satisfy when a spawn is due: the redraw loop must end on an idle cross inside the table. `Pieces.AllMovingNeverSettles` and `Pieces.SizeDrawLeavesTable` show which runs that excludes.

## Model

| member | source | states |
|---|---|---|
| Pieces.Inc8 | PlayMode.cpp:178 | `remain_coffins++` on a `uint8_t` adds one below 255 and wraps 255 to 0 |
| Pieces.Dec8 | PlayMode.cpp:242 | `remain_lives--` on a `uint8_t` subtracts one above 0 and wraps 0 to 255 |
| Pieces.FreshCross | PlayMode.cpp:86-89 | a cross as set up from the scene: its depth and base depth are the scene's, its target lies 6.2 below; with the defaults of the `Cross` constructor in PlayMode.hpp (lines 73-77) it is idle with speed -0.025; it is in a reachable shape |
| Pieces.StepCross | PlayMode.cpp:219-232 | an idle cross is unchanged; a moving cross advances by its speed and keeps moving unless it passes the base, including the step that passes the target; it reverses when it passes either bound and otherwise keeps its speed; once past the base it stops, clamped to the base; base and target never change |
| Pieces.Strikes | PlayMode.cpp:237-238 | a covered coffin is never struck; a cross not past its target never strikes; a strike leaves the coffin at most 3 hits |
| Pieces.Struck | PlayMode.cpp:241 | a strike adds exactly one hit and leaves the cover as it was |
| Pieces.StepCrossKeepsOk | PlayMode.cpp:211-232 | a step, and setting an idle cross moving, keep a cross in its reachable shapes (idle at base; inbound between target and base; outbound at most one step past the target) |
| Pieces.StrikesOnlyOutbound | PlayMode.cpp:237-238 | a cross strikes only while moving outwards, just after reversing at the target, never more than one step below it |
| Pieces.MovingCrossChanges | PlayMode.cpp:219-232 | every update changes a moving cross |
| Pieces.FirstStop | PlayMode.cpp:207-210 | the index of the first draw on which the do-while loop exits: every earlier draw names a moving cross, and that draw names an idle cross or lies outside the table |
| Pieces.Picked | PlayMode.cpp:207-211 | when the loop ends inside the table, the cross it picks is an idle one |
| Pieces.DrawIdle | PlayMode.cpp:206-210 | the redraw loop returns the first draw naming an idle cross; every earlier draw named a moving cross inside the table |
| Pieces.AllMovingNeverSettles | PlayMode.cpp:207-210 | when all crosses are moving, no run of draws ends the loop on an idle cross inside the table |
| Pieces.SizeDrawLeavesTable | PlayMode.cpp:208-210 | a draw of 9 before any idle cross was found makes the loop exit outside the table |
| Pieces.IdleDrawSettles | PlayMode.cpp:207-210 | a first draw naming an idle cross ends the loop on that cross |
| Grid.Navigate | PlayMode.cpp:111-127 | the next cell stays in 0..8; A/D keep the row, W/S keep the column; any other key gives back the current cell |
| Grid.NavigateWraps | PlayMode.cpp:114-127 | A/D step the column and W/S step the row by one around a ring of three, wrapping at the edges |
| Grid.NavigateUndo | PlayMode.cpp:114-127 | A then D, D then A, W then S and S then W return to the start cell |
| Grid.NavigateCycles | PlayMode.cpp:114-127 | three presses of the same key return to the start cell |
| Round.Initial | PlayMode.hpp:34-44 | the start state is well formed: nine coffins, nine crosses, selections inside the grid |
| Round.Intro | PlayMode.cpp:138-141 | the intro timer and the spawn countdown drop by `elapsed` (so the intro timer falls when time passes), and nothing else changes |
| Round.Tally | PlayMode.cpp:174-179 | the counting loop over the first k coffins adds between 0 and k to its start value while that fits in a byte |
| Round.Survivors | PlayMode.cpp:174-179 | the number of coffins with `hitTimes != 3` is at most the table size |
| Round.Countdown | PlayMode.cpp:156-163 | the clock drops by `elapsed`; below 60 s left, while the interval is above 1.5, it is set to 3 × (time left / 60), and it changes in no other case; nothing else changes |
| Round.EndRound | PlayMode.cpp:165-183 | the round is ended with 0 time left; the selected coffin is uncovered and every other coffin is unchanged; hits, lives, crosses, selections, intro timer and both intervals stay; score = 100 × lives + 300 × counted coffins |
| Round.Select | PlayMode.cpp:186-200 | the current cell becomes the pending one; if it changed, the new cell is covered and the old one uncovered, other covers stay; no hit count changes; nothing else changes |
| Round.Spawn | PlayMode.cpp:203-213 | the spawn countdown drops by `elapsed`; once below zero the picked cross, which was idle, is set moving and the countdown restarts at the attack interval; otherwise the crosses stay |
| Round.Visit | PlayMode.cpp:219-243 | one iteration: cross i takes one step; coffin i gains exactly one hit and one life is lost exactly when the stepped cross strikes it; its cover, every other coffin and all other fields stay |
| Round.Sweep | PlayMode.cpp:216-243 | after k iterations of the cross loop, each of the first k crosses has taken one step, and its coffin has taken one hit exactly when the stepped cross strikes it; the rest are untouched; only the tables and the lives change |
| Round.Play | PlayMode.cpp:185-243 | selection, spawn and cross loop keep the state well formed |
| Round.Update | PlayMode.cpp:134-285 | a frame keeps the state well formed (nine coffins, nine crosses, selections in the grid) |
| RoundFacts.SumHitsUpdate | PlayMode.cpp:241-242 | replacing one coffin changes the hit total by the change in its hits |
| RoundFacts.SameHits | PlayMode.cpp:174-179 | the hit total and the count of coffins with a life left depend on hit counts only, not on covers |
| RoundFacts.SumHitsCap | PlayMode.cpp:237-238 | with at most 3 hits per coffin, the total is at most 3 per coffin |
| RoundFacts.SumHitsRoom | PlayMode.cpp:237-242 | a strike on a coffin with a life left cannot take the total past 27, so `remain_lives` is positive when it is decremented |
| RoundFacts.SumHitsUnhit | PlayMode.hpp:49-58 | unhit coffins hold no hits and all count as having a life left |
| RoundFacts.TallyCounts | PlayMode.cpp:174-179 | the counting loop adds one per coffin with `hitTimes != 3`, with no wrap-around while the count fits in a byte |
| RoundFacts.InitialOk | PlayMode.hpp:34-44 | the start state: cell 4 selected and the only one covered, 90 s on the clock, interval and intro 3 s, 27 = 9 × 3 lives, nothing hit, not ended, every cross idle at its base; the invariant and the interval bound hold |
| RoundFacts.VisitKeeps | PlayMode.cpp:216-243 | one iteration of the cross loop keeps hits ≤ 3, lives + hits = 27 and every cross's reachable shape |
| RoundFacts.SweepKeeps | PlayMode.cpp:216-243 | the whole cross loop keeps hits ≤ 3, lives + hits = 27 and every cross's reachable shape |
| RoundFacts.SelectKeeps | PlayMode.cpp:186-200 | a selection change keeps exactly the current coffin covered, and keeps the rest of the invariant |
| RoundFacts.SpawnKeeps | PlayMode.cpp:203-213 | setting an idle cross moving keeps the invariant |
| RoundFacts.SweepKeepsInvariant | PlayMode.cpp:216-243 | the cross loop of a running round keeps the invariant |
| RoundFacts.PlayKeeps | PlayMode.cpp:185-243 | selection, spawn and cross loop together keep the invariant |
| RoundFacts.UpdateKeepsInvariant | PlayMode.cpp:134-285 | every frame keeps the invariant, whatever the elapsed time: exactly the current coffin covered before the end and none after; hits ≤ 3; lives + hits = 27; crosses in reachable shapes; no score before the end, the score formula after it |
| RoundFacts.EndRoundKeeps | PlayMode.cpp:165-183 | the end of the round keeps the invariant: no coffin covered, counted coffins = coffins with a life left, the score formula holds |
| RoundFacts.EndedIsFinal | PlayMode.cpp:136 | once the round has ended, an update changes nothing |
| RoundFacts.IntroOnlyTimers | PlayMode.cpp:138-153 | during the intro only the intro timer and the spawn countdown drop by `elapsed`; clock, interval, selection, covers, crosses, hits and lives stay |
| RoundFacts.EndTick | PlayMode.cpp:165-183 | the first tick after the clock runs out ends the round with 0 time left and no coffin covered; hits, crosses and lives stay, every coffin but the selected one is unchanged, and no other field changes; counted coffins = those with a life left; score = 100 × lives + 300 × that count |
| RoundFacts.EndOnlyWhenTimeIsUp | PlayMode.cpp:156-183 | an update ends the round only when the intro is over and the clock had already run out |
| RoundFacts.PlayTick | PlayMode.cpp:155-243 | a running tick: the clock drops by `elapsed`; the pending cell becomes the single covered one; each cross (the one just spawned set moving first) takes one step; its coffin gains a hit exactly when that step strikes; lives + hits = 27; the covered coffin takes no hit |
| RoundFacts.SpawnTick | PlayMode.cpp:202-213 | when the countdown drops below zero, the picked cross was idle, is now moving, and the countdown restarts at the new attack interval; otherwise the countdown just drops and no idle cross starts to move |
| RoundFacts.ZeroElapsedNotIdle | PlayMode.cpp:216-232 | an update with zero elapsed time during play still changes every moving cross, so it is not a no-op |
| RoundFacts.RampKeeps | PlayMode.cpp:158-162 | with `elapsed ≥ 0` the attack interval never grows: 3 s while a minute or more is left, never below 3 × (time left / 60), and below a minute at most the larger of 1.5 and 3 × (time left / 60) |
| RoundFacts.RampFloorReached | PlayMode.cpp:159-162 | with 30 s or less left in a running round, the attack interval is at most 1.5 s |
| RoundFacts.Rank | PlayMode.cpp:134-183 | a bound on the updates left is zero exactly when the round has ended, and at least one step otherwise |
| RoundFacts.RankDecreases | PlayMode.cpp:134-183 | each update of at least `delta` seconds lowers the bound of a running round by `delta` |
| RoundFacts.StepRank | PlayMode.cpp:134-183 | an ended round stays ended; a running one loses `delta` of bound per update |
| RoundFacts.TraceKeepsInvariant | PlayMode.cpp:134-285 | every state of a run of updates from an invariant state satisfies the invariant |
| RoundFacts.EndStays | PlayMode.cpp:136 | once a run reaches the end of the round it stays in that exact state |
| RoundFacts.RankAlongTrace | PlayMode.cpp:134-183 | after k updates of at least `delta` seconds the round has ended or its bound has dropped by k × `delta` |
| RoundFacts.RoundEnds | PlayMode.cpp:134-183 | updates of at least `delta` seconds end the round within bound/`delta` updates |
| RoundFacts.RoundFromStart | PlayMode.cpp:134-183 | a round from the start with updates of at least `delta` seconds has ended after (93 + 3 × delta)/delta updates, no coffin covered, hits ≤ 3, lives + hits = 27, score = 100 × lives + 300 × coffins with a life left |
| Hud.Trunc | PlayMode.cpp:320 | a float-to-integer cast truncates towards zero |
| Hud.Decimal | PlayMode.cpp:321 | `std::to_string` gives at least one decimal digit, exactly one below 10, and no leading zero |
| Hud.DecimalReadsBack | PlayMode.cpp:321 | reading the digits of `to_string(n)` back gives `n` |
| Hud.TwoDigits | PlayMode.cpp:321-325 | a number below 100 becomes two digits, zero-padded below 10, and reads back to itself |
| Hud.Minute | PlayMode.cpp:320 | `minute` is the whole minutes left, 0 when the clock is below zero |
| Hud.Second | PlayMode.cpp:323 | `second` is below 60; minutes × 60 + seconds is the whole seconds left |
| Hud.Clock | PlayMode.cpp:320-326 | under 100 minutes the clock text is five characters, two digits, a colon, two digits |
| Hud.ClockReadsBack | PlayMode.cpp:320-326 | under 100 minutes the clock text is `MM:SS`, and reading it back gives the whole seconds left |
| Hud.ClockBelowZero | PlayMode.cpp:320-325 | in the last second below zero the clock reads `00:00` |
| Hud.Compose | PlayMode.cpp:326-330 | the main text is `to_string(score)` once ended (digits only, no leading zero, reading back to the score) and the clock before; the title is "Score" exactly when ended; the explanation is empty exactly during the intro, the lives and coffins left after the end, and the controls during play |
| Play.PlayMode.constructor | PlayMode.cpp:102 | the object starts in the start state of a round (header defaults, centre cell covered) with two fresh tables |
| Play.PlayMode.HandleEvent | PlayMode.cpp:109-132 | a key press sets `next_coffin` to the cell the key leads to and returns true; any other event changes nothing and returns false |
| Play.PlayMode.Update | PlayMode.cpp:134-285 | the object changes exactly as `Round.Update` says and keeps the invariant; with `elapsed ≥ 0` the attack interval does not grow |
| Play.PlayMode.Step | PlayMode.cpp:136-183 | the four branches of the update: ended, intro, running tick, end of round |
| Play.PlayMode.Tick | PlayMode.cpp:156-243 | a running tick is the countdown followed by selection, spawn and the cross loop |
| Play.PlayMode.RunClock | PlayMode.cpp:158-162 | the clock drops by `elapsed` and the attack interval is set as `Round.Countdown` says |
| Play.PlayMode.PlayOn | PlayMode.cpp:185-243 | selection, spawn and cross loop change the object as `Round.Play` says |
| Play.PlayMode.FinishRound | PlayMode.cpp:165-183 | the end branch, with its counting loop, changes the object as `Round.EndRound` says |
| Play.PlayMode.ApplySelection | PlayMode.cpp:186-200 | the selection change updates the covers and `current_coffin` as `Round.Select` says |
| Play.PlayMode.LaunchCross | PlayMode.cpp:203-213 | the spawn countdown and the redraw loop change the object as `Round.Spawn` says |
| Play.PlayMode.MoveCrosses | PlayMode.cpp:216-243 | the loop over the crosses changes the object as `Round.Sweep` over all nine says |
| Play.PlayMode.VisitCross | PlayMode.cpp:219-243 | one iteration moves cross `i` and may strike coffin `i`, as `Round.Visit` says |

## Left out

- Mesh and scene loading, the GL set-up and the text drawing calls: asset I/O and rendering, no game logic.
- The constructor's walk over the scene's named transforms: it is tied to the asset file. The base depth of each cross is a constructor parameter instead, and its target is 6.2 below.
- Cosmetics: cover rotation during the intro and on selection, box wobble and its range, ghost shrink and spin, `box_rotation_speed` and `live_base_scale`. They are quaternion and scale arithmetic that no game decision reads.
- The random generator (`std::random_device`, `mt19937`): its values are the `draws` parameter.
- The button counters and their reset at the end of `update`: the game logic never reads them.
- `Coffin::isSelected`: it is set in the constructor and never read.
- Null scene references and their dereferences: the model has no pointers.
- IEEE single-precision rounding of timers, speeds and depths: they are exact reals.
- `score`: a `uint32_t` in the source and a `nat` here. Its largest value is 100 × 27 + 300 × 9 = 5400, so it never wraps.
- Play.PlayMode.Update: requires `Round.Allowed`. Draws must lie in 0..9, and when a spawn is due the redraw loop must end on an idle cross inside the table. The source has undefined behaviour on a draw of 9 and hangs when all crosses are moving. The model does not say what happens then.
- Hud.Compose: requires the clock to be above -1 s and below 15360 s, so that both `uint8_t` conversions are defined. Outside that range the source's conversion has no defined result.
- RoundFacts.RampKeeps: proved only for `elapsed ≥ 0`. With negative elapsed time the clock can run back above a minute, and the interval keeps its lowered value.
