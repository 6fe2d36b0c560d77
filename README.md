# Two-player button racing and line tracking, modelled in Dafny

This project models the rules engine of two Raspberry Pi games and proves properties of it.

**Button racing** (`Game_ButtonRacing.py`) is a two-player reaction game. A light alternates
between an off phase and a light phase. The light phase is green or red, chosen at random.

- A press on green is a success.
- A press while the light is off or red costs the player a life.
- A player who is still alive but does not press during a green light loses a life when it expires.
- Player 1 starts the game from `waiting`. Player 1 restarts it from `ended` once the 5-second end screen is over.
- Holding player 1's button for at least 2 seconds resets the game.
- Each completed round shortens the light and the interval by one step, down to their floors.

**Line tracking** (`Game_tracking.py`) gives the player five hearts. A heart is lost each time the
tracking sensor goes from on the line to off it.

All time is in integer milliseconds: debounce 150, long press 2000, end screen 5000, light 700
(floor 300, step 10), interval 1000 (floor 400, step 20).

## Structure

- `button_racing.dfy`, module `ButtonRacing`: the constants and the shared state as a record (`Game`).
  It also holds the callback rules as functions: `Handle`, with `Press` and `Release` for the two levels.
  `Press` splits into `EndScreenPress` and `RoundPress`.
  The round phases are `EnterOffPhase`, `ShowLightPhase`, `Expire` and `Finish`.
  `Replay` delivers a sequence of callbacks, and `NextTiming` and `TimingAfter` are the difficulty ramp.
  `Game.Valid` is the invariant every reachable state keeps. It says:
  - lives stay between 0 and 3;
  - `waiting` means the defaults;
  - `ended` means no lives are left and the end time is set.
- `button_racing_globals.dfy`, module `ButtonRacingGlobals`: class `GameState`. Its fields are the
  program's globals. Each method is one atomic step of the callback or of the game loop.
  - The callback methods and the phase methods state the new `Snapshot()` as the matching rule
    function of the old one.
  - `Wait`, `PlayRound` and the loop methods do the same whenever no reset interrupts them. An
    interrupted exit states only that the reset signal is raised and the state is `waiting`.
  - `GameLoop` is `game_loop`. It is driven by a finite schedule of rounds: the events during the
    off phase, the colour drawn, and the events during the light. When the loop runs out of lives,
    the final state is `Finish` of `PlayedRounds` over the rounds played.
- `button_racing_properties.dfy`, module `ButtonRacingProperties`: lemmas that relate several steps.
- `tracking.dfy`, module `Tracking`: the heart loop of the tracking game, `PlayGame`, proved
  against reference counts of falling edges.

The `reset` field stands for the reset event. The `audio` field is the sequence of commands put on
the buzzer queue. Those commands are the start beeps (3 × 100 ms), the end signal and stop.

Behaviour of the code worth noting:

- The callback reads the pin's level after the debounce. It does not read the edge that fired. So the model's event carries a level, HIGH or LOW.
- The end-screen test also needs `game_end` to be truthy. The press-time test for a release also needs `press_time[1]` to be truthy. A Python value of `None` or `0` is false, and `Truthy` and `HasPressTime` model this exactly.
- `reset_game` does not reset the light duration and the interval. They are locals of `game_loop`, and each new loop starts them at their initial values again.
- The press time is recorded before the end-screen cool-down test. So a press ignored during the cool-down can still become a long press that resets the game.

## Model

| member | source | states |
|---|---|---|
| `ButtonRacing.Handle` | Game_ButtonRacing.py:88-129 | Debounce: an event less than 150 ms after the player's last accepted event changes nothing. An accepted event sets that player's last press time to its time, whatever the level. It keeps `Valid`, and only a long press raises the reset signal, which lands in `waiting`. During a round, with no reset, the phase stays and lives never rise. A button never enters `ended`. Lives change only by a full reset or by a single penalty on an unpressed player that marks them pressed. A press mark is cleared only by a full reset. No end signal is queued. |
| `ButtonRacing.Press` | Game_ButtonRacing.py:101-122 | The press time is recorded first. For player 1 in `waiting`, the game starts: state `off`, start time set, start beeps queued, lives kept. For player 1 in `ended` within 5000 ms of a truthy end time, only the press time changes. Later, the game resets and starts again: lives 3/3, presses cleared, end time cleared, stop then start beeps. On green, a player alive and not yet pressed is marked pressed and keeps their lives. On off or red, the same player loses exactly one life and is marked pressed. Any other press records only its time. |
| `ButtonRacing.RoundPress` | Game_ButtonRacing.py:115-122 | A press during a round by a player who is alive and not yet pressed: on green the player is marked pressed with lives kept; off or red costs exactly one life and marks the player. Any other press changes nothing. Only lives and marks can change, lives never rise, a changed life count is a single penalty on an unmarked player, marks are never cleared, and `Valid` is kept. |
| `ButtonRacing.EndScreenPress` | Game_ButtonRacing.py:108-113 | Player 1's press on the end screen is ignored while within 5000 ms of a truthy end time. Otherwise the game is reset and started again: state `off`, lives 3/3, presses cleared, start time set, end time cleared, stop then start beeps queued, and nothing else changes. |
| `ButtonRacing.PressKeepsInvariants` | Game_ButtonRacing.py:101-122 | Every press keeps `Valid`, never enters `ended` from another state, keeps a round phase with lives not rising, and changes lives or clears marks only by a full reset or a single penalty on an unmarked player. It queues no end signal. |
| `ButtonRacing.Release` | Game_ButtonRacing.py:124-129 | For player 1, with a truthy press time and a press of at least 2000 ms: the reset signal is raised and the defaults are restored (state `waiting`, lives 3/3, no presses, no start or end time), the press time is removed and stop is queued. A shorter press only removes the press time. Player 2's releases, and releases without a press time, change nothing. |
| `ButtonRacing.Start` | Game_ButtonRacing.py:133-140 | State `off`, start time set to the given time, start beeps queued. Lives, presses, press times, the end time and the reset signal are kept, and `Valid` is kept. No end signal is queued. |
| `ButtonRacing.Reset` | Game_ButtonRacing.py:143-153 | From any state, the result is `Valid` and `waiting`: lives 3/3, no presses, no start or end time. Stop is queued. The reset signal and the press times are untouched. |
| `ButtonRacing.Replay` | Game_ButtonRacing.py:88-129 | Over any sequence of callbacks: `Valid` is kept and a raised reset stays raised. Without a reset, a round phase stays and lives never rise. `ended` is never entered. The number of end signals queued is unchanged. |
| `ButtonRacing.Expire` | Game_ButtonRacing.py:182-185 | A player loses a life at light expiry exactly when the light was green and the player was alive and had not pressed. At most one life is lost and lives never rise. Every field other than the lives is kept. `Valid` is kept during a round. |
| `ButtonRacing.EnterOffPhase` | Game_ButtonRacing.py:164-166 | State `off` and both press marks clear. Every other field, including lives, the reset signal, the timestamps and the buzzer queue, is kept. `Valid` is kept during a round. |
| `ButtonRacing.ShowLightPhase` | Game_ButtonRacing.py:172-173 | The state becomes `green` exactly when green was drawn, and otherwise `red`. Nothing else changes, and `Valid` is kept during a round. |
| `ButtonRacing.Finish` | Game_ButtonRacing.py:189-192 | State `ended`, end time set, and the end signal appended to the buzzer queue. Every other field, including lives, marks, the start time, the press times and the reset signal, is kept. When no player has lives left, `Valid` is kept. |
| `ButtonRacing.PlayedRound` | Game_ButtonRacing.py:163-185 | One round played to expiry: off, the off-phase events, the light, the light events, expiry. A raised reset stays raised, and no end signal is queued. |
| `ButtonRacing.PlayedRounds` | Game_ButtonRacing.py:162-187 | The rounds played one after the other. A raised reset stays raised, and no end signal is queued. |
| `ButtonRacingProperties.PlayedRoundKeepsTheGame` | Game_ButtonRacing.py:163-185 | A round played from a well-formed round phase without a reset stays `Valid` and ends in the phase of the colour drawn. Each player loses at most one life and none comes back. |
| `ButtonRacingProperties.PlayedRoundsKeepTheGame` | Game_ButtonRacing.py:162-187 | n rounds played without a reset stay `Valid` and in a round phase. Each player loses at most n lives and none comes back. |
| `ButtonRacing.TimingAfter` | Game_ButtonRacing.py:160-187 | After any number of completed rounds, the light lies between 300 and 700 ms and the interval between 400 and 1000 ms. |
| `ButtonRacing.NextTiming` | Game_ButtonRacing.py:186-187 | Each duration is shortened by exactly one step or set to its floor. It is never below the floor and never increases once at or above the floor. |
| `ButtonRacingProperties.TimingAfterClosedForm` | Game_ButtonRacing.py:160-187 | After n completed rounds, light = max(300, 700 − 10·n) and interval = max(400, 1000 − 20·n). Each is clamped independently. |
| `ButtonRacingProperties.TimingMonotone` | Game_ButtonRacing.py:186-187 | Across rounds both durations are non-increasing and stay between their floors and initial values. |
| `ButtonRacingProperties.ReplayKeepsBudget` | Game_ButtonRacing.py:115-122 | If a player has lost at most one life since the round began, and only while marked pressed, this remains true over any sequence of callbacks. |
| `ButtonRacingProperties.RoundCostsAtMostOneLife` | Game_ButtonRacing.py:162-187 | In a round played to expiry, each player loses at most one life, whatever both players press: entering off clears the marks, the penalty needs and sets the mark, and the missed-green loss needs it unset. |
| `ButtonRacingProperties.LivesNeverRiseWithinSession` | Game_ButtonRacing.py:115-122 | Once a round is under way and no reset is signalled, callbacks keep the phase. Each player's lives stay between 0 and their value at the start. |
| `ButtonRacingProperties.DebounceWindow` | Game_ButtonRacing.py:92-94 | Of one player's events that fall within one 150 ms window, at most one is accepted. |
| `ButtonRacingProperties.PressAndRelease` | Game_ButtonRacing.py:101-129 | Player 1 presses to start a game, from `waiting` or from `ended` after the cool-down, and then releases. A hold of at least 2000 ms resets to `waiting` with the reset signal raised. A shorter hold leaves the new game in `off`, with lives 3/3, the start time set to the press, and the reset signal as it was. A release within 150 ms of the press is bounced and leaves the press time recorded. |
| `ButtonRacingProperties.GreenRoundScenario` | Game_ButtonRacing.py:172-185 | In a green round, player 1 presses and player 2 does not: player 1 is marked and keeps their lives, and player 2 loses exactly one life. |
| `ButtonRacingGlobals.GameState.constructor` | Game_ButtonRacing.py:38-52 | The globals at start-up: `waiting`, lives 3/3, no presses, last press times 0, no press times, no start or end time, no reset, nothing queued. |
| `ButtonRacingGlobals.GameState.StartGame` | Game_ButtonRacing.py:133-140 | The new state is `Start` of the old: state `off`, start beeps queued, start time taken. `Valid` is kept. |
| `ButtonRacingGlobals.GameState.ResetGame` | Game_ButtonRacing.py:143-153 | The new state is `Reset` of the old: lives 3/3, `waiting`, no start or end time, presses cleared, stop queued. The result is `Valid`. |
| `ButtonRacingGlobals.GameState.ButtonEvent` | Game_ButtonRacing.py:88-129 | The new state is `Handle` of the old. `started` is true exactly when the callback called `start_game`, which spawns a game loop. `Valid` is kept. |
| `ButtonRacingGlobals.GameState.PressButton` | Game_ButtonRacing.py:101-122 | The new state is `Press` of the old. `started` is true exactly for player 1 in `waiting`, or in `ended` once the end-screen cool-down is over. `Valid` is kept. |
| `ButtonRacingGlobals.GameState.RoundPressButton` | Game_ButtonRacing.py:115-122 | The new state is `RoundPress` of the old: a penalty or a success mark for a player alive and not yet pressed. |
| `ButtonRacingGlobals.GameState.ReleaseButton` | Game_ButtonRacing.py:124-129 | The new state is `Release` of the old. `Valid` is kept. |
| `ButtonRacingGlobals.GameState.EnterOff` | Game_ButtonRacing.py:164-166 | The new state is `EnterOffPhase` of the old: state `off` and both press marks cleared. `Valid` is kept during a round. |
| `ButtonRacingGlobals.GameState.ShowLight` | Game_ButtonRacing.py:172-173 | The new state is `ShowLightPhase` of the old: the state becomes the colour drawn. `Valid` is kept during a round. |
| `ButtonRacingGlobals.GameState.ExpireLight` | Game_ButtonRacing.py:182-185 | The new state is `Expire` of the old, computed by the loop over players 1 and 2. `Valid` is kept during a round. |
| `ButtonRacingGlobals.GameState.EndGame` | Game_ButtonRacing.py:189-192 | The new state is `Finish` of the old: state `ended`, end time set, end signal queued. When the loop left a round with no lives, `Valid` is kept. |
| `ButtonRacingGlobals.GameState.Wait` | Game_ButtonRacing.py:168-181 | The events of one phase are delivered until they run out or a reset is raised. The new state is `Replay` of the consumed events, and only a reset stops the wait early. After a reset the state is `waiting`. Without one the phase is unchanged. |
| `ButtonRacingGlobals.GameState.PlayRound` | Game_ButtonRacing.py:163-185 | One loop iteration. When not interrupted, the new state is `PlayedRound` of the old, in the colour's phase, and each player has lost at most one life and gained none. When interrupted, the reset is raised and the state is `waiting`. |
| `ButtonRacingGlobals.GameState.PlayNext` | Game_ButtonRacing.py:162-187 | The next round of the schedule, from the state the earlier rounds led to. When not interrupted, the state is `PlayedRounds` over one more round, some player had lives before it, and each player lost at most one life. When interrupted, the reset is raised and the state is `waiting`. |
| `ButtonRacingGlobals.GameState.RunRounds` | Game_ButtonRacing.py:160-187 | The `while` loop: rounds are played while no reset is signalled and some player has lives. Some player had lives before each round played, and the timing is `TimingAfter(rounds played)`. Without a reset, the state is `PlayedRounds` over the rounds played and each player's lives lie between the starting lives minus the rounds played and the starting lives. The exit says why the loop stopped: schedule used up with a player alive, no lives left, or a reset. |
| `ButtonRacingGlobals.GameState.GameLoop` | Game_ButtonRacing.py:157-193 | The loop clears the reset signal and runs while no reset is signalled and some player has lives. Some player had lives before each round played. The timing after it equals `TimingAfter(rounds played)`. The state is `ended` exactly when the loop ran out of lives. Then the state is `Finish` of `PlayedRounds` over the rounds played, there is no reset, lives are 0/0, the end time is set, and at least as many rounds were played as either player's starting lives. Without a reset, lives lie between the starting lives minus the rounds played and the starting lives. A reset exit leaves `waiting` and skips `ended`. Exactly one end signal is queued when the game ends, and none otherwise. |
| `Tracking.PlayGame` | Game_tracking.py:68-85 | Hearts start at 5, on the line. Hearts lost = the number of on-to-off edges among the readings taken. Hearts never go negative. The loop stops when hearts reach 0, or when the readings run out, and not before. A warning beep is started for every lost heart except the last. |
| `Tracking.StepOfReading` | Game_tracking.py:73-83 | A LOW reading while on the line costs exactly one heart and leaves the line. A LOW reading off the line costs nothing. A HIGH reading re-arms the detector and costs nothing. A beep is counted only when a heart remains after the loss. |
| `Tracking.LowRunCostsAtMostOneHeart` | Game_tracking.py:74-83 | A run of LOW readings of any length costs at most one heart. It costs exactly one when it begins on the line. |
| `Tracking.EdgesNeedAReturnToTheLine` | Game_tracking.py:74-83 | n readings hold at most (n + 1) / 2 lost hearts, and at most n / 2 if the last reading is on the line. |

## Left out

- The hardware is left out because it is I/O: GPIO setup, pin writes, the LEDs, the LCD thread and its text, and the buzzer thread. The buzzer queue appears only as the sequence of commands put on it. The buzzer thread also clears the reset event after playing the end signal; that is not modelled.
- Threads, locks and `time.sleep` polling are left out. Each callback and each phase change of the game loop is one atomic step. The callback copies `state` under the lock at lines 98-99 but then judges the press and updates `press_time`, `lives` and `pressed` outside it, at lines 101-122. The race between that and the game loop is not modelled.
- Events are delivered one at a time inside the interruptible waits. The wait stops as soon as the reset signal is raised. The model does not check that an event's timestamp falls within the phase's interval or light duration.
- The clock is a parameter: each event carries its time, and `GameLoop` takes the end time. `game_start` is set to the press time of the event that started the game.
- The random colour choice is an input of each scheduled round.
- `GameLoop` runs over a finite schedule of rounds. When the schedule runs out while the game is still on, it returns `Pending`.
- `Tracking.PlayGame` reads from a finite sequence of sensor readings. The source polls the sensor until the hearts run out; the model also stops when the readings run out, and its contract then gives the hearts left.
- Floating-point seconds are modelled as exact integer milliseconds.
- Python's `time.time()` is always large and positive, so a stored zero timestamp never occurs in practice. The model still treats zero as false.
- Game_MaxAngle.py is not part of this model. It is floating-point trigonometry over an inertial sensor, with LCD and button I/O.
- In the tracking game, `wait_for_button`, the start and game-over beeps, the outer restart loop and `cleanup` are left out because they are I/O. The warning beeps are counted but not played.
- The process entry point, `cleanup` and `KeyboardInterrupt` handling are left out.
