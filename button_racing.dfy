/** The rules of the two-player button racing game, as functions over one
    record of the game's shared state.  Time is integer milliseconds. */
module ButtonRacing {

  // Game parameters, in milliseconds where they are durations
  const InitialLives: int := 3
  const InitialLightMs: int := 700
  const MinLightMs: int := 300
  const DeltaLightMs: int := 10
  const InitialIntervalMs: int := 1000
  const MinIntervalMs: int := 400
  const DeltaIntervalMs: int := 20
  const LongPressMs: int := 2000
  const DebounceMs: int := 150
  const EndDisplayMs: int := 5000

  datatype Player = P1 | P2

  /** The level read from a button's pin when its callback runs. */
  datatype Level = Low | High

  datatype Phase = Waiting | Off | Green | Red | Ended

  /** The colour drawn for a light phase. */
  datatype Colour = GreenLight | RedLight

  /** Commands put on the buzzer queue. */
  datatype AudioCommand = Beeps(count: nat, onMs: nat, offMs: nat) | EndSignal | Stop

  datatype Option<T> = None | Some(value: T)

  /** The three short beeps that announce a new game. */
  const StartBeeps: AudioCommand := Beeps(3, 100, 100)

  /** A value for each of the two players (the source's `{1: .., 2: ..}` dicts). */
  datatype PerPlayer<T> = PerPlayer(p1: T, p2: T) {
    function Get(p: Player): T {
      if p == P1 then p1 else p2
    }

    function Set(p: Player, v: T): (r: PerPlayer<T>)
      ensures r.Get(p) == v
      ensures forall q :: q != p ==> r.Get(q) == Get(q)
    {
      if p == P1 then PerPlayer(v, p2) else PerPlayer(p1, v)
    }
  }

  const FullLives: PerPlayer<int> := PerPlayer(InitialLives, InitialLives)
  const NoLives: PerPlayer<int> := PerPlayer(0, 0)
  const NoPresses: PerPlayer<bool> := PerPlayer(false, false)

  predicate IsRoundPhase(s: Phase) {
    s == Off || s == Green || s == Red
  }

  function PhaseOf(c: Colour): Phase {
    if c == GreenLight then Green else Red
  }

  /** A button callback: which player, the level read, and the time it ran. */
  datatype Event = Event(player: Player, level: Level, time: int)

  /** One round of the game loop: the button events delivered while the light is
      off, the colour drawn, and the events delivered while that light is on. */
  datatype Round = Round(offEvents: seq<Event>, colour: Colour, lightEvents: seq<Event>)

  /** The shared game state; `reset` stands for the reset event and `audio` for
      every command put on the buzzer queue so far. */
  datatype Game = Game(
    state: Phase,
    lives: PerPlayer<int>,
    pressed: PerPlayer<bool>,
    lastPressTime: PerPlayer<int>,
    pressTime: map<Player, int>,
    gameStart: Option<int>,
    gameEnd: Option<int>,
    reset: bool,
    audio: seq<AudioCommand>)
  {
    /** The invariant every reachable state keeps. */
    predicate Valid() {
      && 0 <= lives.p1 <= InitialLives && 0 <= lives.p2 <= InitialLives
      && (state == Waiting ==>
            lives == FullLives && pressed == NoPresses && gameStart == None && gameEnd == None)
      && (state == Ended ==> lives == NoLives && gameStart.Some? && gameEnd.Some?)
      && (IsRoundPhase(state) ==> gameStart.Some?)
    }

    /** The game loop's continuation test on lives. */
    predicate AnyAlive() {
      lives.p1 > 0 || lives.p2 > 0
    }
  }

  /** The state when the program has just been set up. */
  const Initial: Game :=
    Game(Waiting, FullLives, NoPresses, PerPlayer(0, 0), map[], None, None, false, [])

  /** Python's truthiness of an optional timestamp: `None` and `0` are false. */
  predicate Truthy(t: Option<int>) {
    t.Some? && t.value != 0
  }

  /** Player 1 has a recorded press time that `press_time.get(1)` finds truthy. */
  predicate HasPressTime(g: Game) {
    P1 in g.pressTime && g.pressTime[P1] != 0
  }

  /** The end screen is still shown, so a restart press is ignored. */
  predicate InCoolDown(g: Game, now: int) {
    Truthy(g.gameEnd) && now - g.gameEnd.value < EndDisplayMs
  }

  /** The event comes too soon after the previous accepted one of its player. */
  predicate Bounced(g: Game, e: Event) {
    e.time - g.lastPressTime.Get(e.player) < DebounceMs
  }

  function EndSignals(a: seq<AudioCommand>): nat {
    multiset(a)[EndSignal]
  }

  /** `start_game`: the light goes off, the start beeps are queued and the start time is taken. */
  function Start(g: Game, now: int): (r: Game)
    ensures r.state == Off && r.gameStart == Some(now) && r.audio == g.audio + [StartBeeps]
    // lives, presses, press times, the end time and the reset signal are kept
    ensures r.lives == g.lives && r.pressed == g.pressed && r.gameEnd == g.gameEnd && r.reset == g.reset
    ensures r.lastPressTime == g.lastPressTime && r.pressTime == g.pressTime
    ensures g.Valid() ==> r.Valid()
    ensures EndSignals(r.audio) == EndSignals(g.audio)
  {
    g.(state := Off, audio := g.audio + [StartBeeps], gameStart := Some(now))
  }

  /** `reset_game`: lives, phase, timestamps and presses back to their defaults; the buzzer is stopped. */
  function Reset(g: Game): (r: Game)
    // from any state at all, the result is a well-formed waiting state
    ensures r.Valid() && r.state == Waiting
    ensures r.audio == g.audio + [Stop] && EndSignals(r.audio) == EndSignals(g.audio)
    ensures r.reset == g.reset && r.lastPressTime == g.lastPressTime && r.pressTime == g.pressTime
  {
    g.(lives := FullLives, state := Waiting, gameStart := None, gameEnd := None,
       pressed := NoPresses, audio := g.audio + [Stop])
  }

  /** The press rules of the game proper, for a press in any phase but the
      start rule's and the end screen's. */
  function RoundPress(g: Game, p: Player): (r: Game)
    // success on green
    ensures g.state == Green && g.lives.Get(p) > 0 && !g.pressed.Get(p) ==>
      r == g.(pressed := g.pressed.Set(p, true))
    // penalty while the light is off or red
    ensures (g.state == Off || g.state == Red) && g.lives.Get(p) > 0 && !g.pressed.Get(p) ==>
      r == g.(pressed := g.pressed.Set(p, true), lives := g.lives.Set(p, g.lives.Get(p) - 1))
    // any other press changes nothing
    ensures !(IsRoundPhase(g.state) && g.lives.Get(p) > 0 && !g.pressed.Get(p)) ==> r == g
    ensures r == g.(lives := r.lives, pressed := r.pressed)
    ensures g.Valid() ==> r.Valid()
    ensures forall q :: r.lives.Get(q) <= g.lives.Get(q)
    ensures forall q :: r.lives.Get(q) != g.lives.Get(q) ==>
      r.lives.Get(q) == g.lives.Get(q) - 1 && !g.pressed.Get(q) && r.pressed.Get(q)
    ensures forall q :: g.pressed.Get(q) ==> r.pressed.Get(q)
  {
    if IsRoundPhase(g.state) && g.lives.Get(p) > 0 && !g.pressed.Get(p) then
      if g.state == Green then g.(pressed := g.pressed.Set(p, true))
      else g.(lives := g.lives.Set(p, g.lives.Get(p) - 1), pressed := g.pressed.Set(p, true))
    else g
  }

  /** A press of player 1 on the end screen. */
  function EndScreenPress(g: Game, now: int): (r: Game)
    // during the cool-down the press is ignored
    ensures InCoolDown(g, now) ==> r == g
    // after it, the game is reset and started again
    ensures !InCoolDown(g, now) ==>
      && r.state == Off && r.lives == FullLives && r.pressed == NoPresses
      && r.gameStart == Some(now) && r.gameEnd == None && r.audio == g.audio + [Stop, StartBeeps]
      && r == g.(state := r.state, lives := r.lives, pressed := r.pressed, gameStart := r.gameStart,
                 gameEnd := r.gameEnd, audio := r.audio)
  {
    if InCoolDown(g, now) then g else Start(Reset(g), now)
  }

  /** An accepted callback that read HIGH (a press) by player p at time now. */
  function Press(g: Game, p: Player, now: int): (r: Game)
    // the press time is recorded before any rule is applied
    ensures r.pressTime == g.pressTime[p := now]
    ensures r.lastPressTime == g.lastPressTime && r.reset == g.reset
    // start rule
    ensures p == P1 && g.state == Waiting ==>
      && r.state == Off && r.gameStart == Some(now) && r.gameEnd == g.gameEnd
      && r.lives == g.lives && r.pressed == g.pressed && r.audio == g.audio + [StartBeeps]
    // end screen cool-down: the press is ignored
    ensures p == P1 && g.state == Ended && InCoolDown(g, now) ==>
      r == g.(pressTime := g.pressTime[p := now])
    // after the cool-down: reset, then start again
    ensures p == P1 && g.state == Ended && !InCoolDown(g, now) ==>
      && r.state == Off && r.lives == FullLives && r.pressed == NoPresses
      && r.gameStart == Some(now) && r.gameEnd == None && r.audio == g.audio + [Stop, StartBeeps]
    // success on green
    ensures g.state == Green && g.lives.Get(p) > 0 && !g.pressed.Get(p) ==>
      r == g.(pressTime := g.pressTime[p := now], pressed := g.pressed.Set(p, true))
    // penalty while the light is off or red
    ensures (g.state == Off || g.state == Red) && g.lives.Get(p) > 0 && !g.pressed.Get(p) ==>
      r == g.(pressTime := g.pressTime[p := now], pressed := g.pressed.Set(p, true),
              lives := g.lives.Set(p, g.lives.Get(p) - 1))
    // every other press only records its time
    ensures IsRoundPhase(g.state) && !(g.lives.Get(p) > 0 && !g.pressed.Get(p)) ==>
      r == g.(pressTime := g.pressTime[p := now])
    ensures p == P2 && !IsRoundPhase(g.state) ==> r == g.(pressTime := g.pressTime[p := now])
  {
    var g1 := g.(pressTime := g.pressTime[p := now]);
    if p == P1 && g1.state == Waiting then Start(g1, now)
    else if p == P1 && g1.state == Ended then EndScreenPress(g1, now)
    else RoundPress(g1, p)
  }

  /** What every press keeps, whichever rule applies. */
  lemma PressKeepsInvariants(g: Game, p: Player, now: int)
    ensures var r := Press(g, p, now);
      && (g.Valid() ==> r.Valid())
      && (r.state == Ended ==> g.state == Ended)
      && (IsRoundPhase(g.state) ==> r.state == g.state && forall q :: r.lives.Get(q) <= g.lives.Get(q))
      && (forall q :: r.lives.Get(q) != g.lives.Get(q) ==>
            || (r.lives == FullLives && r.pressed == NoPresses)
            || (r.lives.Get(q) == g.lives.Get(q) - 1 && !g.pressed.Get(q) && r.pressed.Get(q)))
      && (forall q :: g.pressed.Get(q) && !r.pressed.Get(q) ==>
            r.lives == FullLives && r.pressed == NoPresses)
      && EndSignals(r.audio) == EndSignals(g.audio)
  {
    var g1 := g.(pressTime := g.pressTime[p := now]);
    if p == P1 && g1.state == Waiting {
      assert Press(g, p, now) == Start(g1, now);
    } else if p == P1 && g1.state == Ended {
      assert Press(g, p, now) == EndScreenPress(g1, now);
    } else {
      assert Press(g, p, now) == RoundPress(g1, p);
    }
  }

  /** An accepted callback that read LOW (a release) by player p at time now. */
  function Release(g: Game, p: Player, now: int): (r: Game)
    // a long press of player 1 raises the reset signal and restores the defaults
    ensures p == P1 && HasPressTime(g) && now - g.pressTime[P1] >= LongPressMs ==>
      && r.reset && r.state == Waiting && r.lives == FullLives && r.pressed == NoPresses
      && r.gameStart == None && r.gameEnd == None && r.pressTime == g.pressTime - {P1}
      && r.lastPressTime == g.lastPressTime && r.audio == g.audio + [Stop]
    // a shorter press only forgets its press time
    ensures p == P1 && HasPressTime(g) && now - g.pressTime[P1] < LongPressMs ==>
      r == g.(pressTime := g.pressTime - {P1})
    // player 2's releases, and releases without a press time, change nothing
    ensures !(p == P1 && HasPressTime(g)) ==> r == g
    ensures g.Valid() ==> r.Valid()
    ensures EndSignals(r.audio) == EndSignals(g.audio)
  {
    if p == P1 && HasPressTime(g) then
      var duration := now - g.pressTime[P1];
      var g1 := g.(pressTime := g.pressTime - {P1});
      if duration >= LongPressMs then Reset(g1.(reset := true)) else g1
    else g
  }

  /** `button_cb`: the software debounce, then the press or release rules. */
  function Handle(g: Game, e: Event): (r: Game)
    // debounce: an event too close to the previous accepted one changes nothing
    ensures Bounced(g, e) ==> r == g
    // an accepted event records its time, whatever the level read
    ensures !Bounced(g, e) ==> r.lastPressTime == g.lastPressTime.Set(e.player, e.time)
    ensures g.Valid() ==> r.Valid()
    // the reset signal is only ever raised here, by a long press, and lands in Waiting
    ensures g.reset ==> r.reset
    ensures !g.reset && r.reset ==> r.state == Waiting
    // during a round only a reset leaves the phase or gives lives back
    ensures IsRoundPhase(g.state) && !r.reset ==>
      r.state == g.state && forall p :: r.lives.Get(p) <= g.lives.Get(p)
    // a button never ends the game
    ensures r.state == Ended ==> g.state == Ended
    // lives change only by a full reset or by one penalty that marks the player as pressed
    ensures forall p :: r.lives.Get(p) != g.lives.Get(p) ==>
      || (r.lives == FullLives && r.pressed == NoPresses)
      || (r.lives.Get(p) == g.lives.Get(p) - 1 && !g.pressed.Get(p) && r.pressed.Get(p))
    // a press mark is only cleared by a full reset
    ensures forall p :: g.pressed.Get(p) && !r.pressed.Get(p) ==>
      r.lives == FullLives && r.pressed == NoPresses
    ensures EndSignals(r.audio) == EndSignals(g.audio)
  {
    if Bounced(g, e) then g
    else
      var g1 := g.(lastPressTime := g.lastPressTime.Set(e.player, e.time));
      assert g1.Valid() <==> g.Valid();
      if e.level == High then
        PressKeepsInvariants(g1, e.player, e.time);
        Press(g1, e.player, e.time)
      else Release(g1, e.player, e.time)
  }

  /** The callback calls `start_game`, which spawns a new game loop. */
  predicate StartsGame(g: Game, e: Event) {
    && !Bounced(g, e) && e.level == High && e.player == P1
    && (g.state == Waiting || (g.state == Ended && !InCoolDown(g, e.time)))
  }

  /** The state after delivering every event of evs, in order. */
  function Replay(g: Game, evs: seq<Event>): (r: Game)
    ensures g.Valid() ==> r.Valid()
    ensures g.reset ==> r.reset
    ensures IsRoundPhase(g.state) && !r.reset ==>
      r.state == g.state && forall p :: r.lives.Get(p) <= g.lives.Get(p)
    ensures r.state == Ended ==> g.state == Ended
    ensures EndSignals(r.audio) == EndSignals(g.audio)
    decreases |evs|
  {
    if evs == [] then g else Handle(Replay(g, evs[..|evs| - 1]), evs[|evs| - 1])
  }

  // ---------------------------------------------------------------------
  // The phases of one round of `game_loop`

  /** Entering the off phase clears both press marks. */
  function EnterOffPhase(g: Game): (r: Game)
    ensures r.state == Off && forall p :: !r.pressed.Get(p)
    ensures r.lives == g.lives && r.reset == g.reset && r.audio == g.audio
    // only the phase and the marks change
    ensures r.(state := g.state, pressed := g.pressed) == g
    ensures g.Valid() && IsRoundPhase(g.state) ==> r.Valid()
  {
    g.(state := Off, pressed := NoPresses)
  }

  function ShowLightPhase(g: Game, c: Colour): (r: Game)
    ensures r.state == Green <==> c == GreenLight
    ensures IsRoundPhase(r.state) && r.state != Off
    ensures r.(state := g.state) == g
    ensures g.Valid() && IsRoundPhase(g.state) ==> r.Valid()
  {
    g.(state := PhaseOf(c))
  }

  /** The lives of p after the light expires on a green that p did not press. */
  function MissedGreen(g: Game, p: Player): int {
    if g.lives.Get(p) > 0 && !g.pressed.Get(p) then g.lives.Get(p) - 1 else g.lives.Get(p)
  }

  /** The light expires: on green, every player still alive who did not press loses a life. */
  function Expire(g: Game, c: Colour): (r: Game)
    ensures forall p :: r.lives.Get(p) < g.lives.Get(p) <==>
      c == GreenLight && g.lives.Get(p) > 0 && !g.pressed.Get(p)
    ensures forall p :: r.lives.Get(p) >= g.lives.Get(p) - 1 && r.lives.Get(p) <= g.lives.Get(p)
    ensures r.state == g.state && r.pressed == g.pressed && r.reset == g.reset && r.audio == g.audio
    // only lives change
    ensures r == g.(lives := r.lives)
    ensures g.Valid() && IsRoundPhase(g.state) ==> r.Valid()
  {
    if c == GreenLight then g.(lives := PerPlayer(MissedGreen(g, P1), MissedGreen(g, P2))) else g
  }

  /** The loop left without a reset: the game is over. */
  function Finish(g: Game, now: int): (r: Game)
    ensures r.state == Ended && r.gameEnd == Some(now)
    ensures r.audio == g.audio + [EndSignal] && EndSignals(r.audio) == EndSignals(g.audio) + 1
    ensures r.lives == g.lives && r.reset == g.reset
    // only the phase, the end time and the buzzer queue change
    ensures r.(state := g.state, gameEnd := g.gameEnd, audio := g.audio) == g
    // the loop only gets here when no player has lives left
    ensures g.Valid() && IsRoundPhase(g.state) && !g.AnyAlive() ==> r.Valid()
  {
    g.(state := Ended, gameEnd := Some(now), audio := g.audio + [EndSignal])
  }

  /** A round played to the end with no reset: off, the events, the light, the events, expiry. */
  function PlayedRound(g: Game, round: Round): (r: Game)
    ensures g.reset ==> r.reset
    ensures EndSignals(r.audio) == EndSignals(g.audio)
  {
    var offDone := Replay(EnterOffPhase(g), round.offEvents);
    var lightDone := Replay(ShowLightPhase(offDone, round.colour), round.lightEvents);
    Expire(lightDone, round.colour)
  }

  /** The rounds of rounds, each played to the end, one after the other. */
  function PlayedRounds(g: Game, rounds: seq<Round>): (r: Game)
    ensures g.reset ==> r.reset
    ensures EndSignals(r.audio) == EndSignals(g.audio)
    decreases |rounds|
  {
    if rounds == [] then g
    else PlayedRound(PlayedRounds(g, rounds[..|rounds| - 1]), rounds[|rounds| - 1])
  }

  /** Some player had lives left before each round of rounds was played from g. */
  predicate AliveBeforeEach(g: Game, rounds: seq<Round>)
    decreases |rounds|
  {
    rounds == [] ||
      var prefix := rounds[..|rounds| - 1];
      AliveBeforeEach(g, prefix) && PlayedRounds(g, prefix).AnyAlive()
  }

  // ---------------------------------------------------------------------
  // The difficulty ramp

  datatype Timing = Timing(lightMs: int, intervalMs: int)

  const InitialTiming: Timing := Timing(InitialLightMs, InitialIntervalMs)

  function Max(a: int, b: int): int {
    if a < b then b else a
  }

  /** Each completed round shortens both durations by one step, down to their floors. */
  function NextTiming(t: Timing): (r: Timing)
    ensures r.lightMs >= MinLightMs && r.intervalMs >= MinIntervalMs
    ensures r.lightMs >= t.lightMs - DeltaLightMs && r.intervalMs >= t.intervalMs - DeltaIntervalMs
    ensures t.lightMs >= MinLightMs ==> r.lightMs <= t.lightMs
    ensures t.intervalMs >= MinIntervalMs ==> r.intervalMs <= t.intervalMs
    ensures r.lightMs == t.lightMs - DeltaLightMs || r.lightMs == MinLightMs
    ensures r.intervalMs == t.intervalMs - DeltaIntervalMs || r.intervalMs == MinIntervalMs
  {
    Timing(Max(MinLightMs, t.lightMs - DeltaLightMs), Max(MinIntervalMs, t.intervalMs - DeltaIntervalMs))
  }

  /** The timing after n completed rounds. */
  function TimingAfter(n: nat): (r: Timing)
    ensures MinLightMs <= r.lightMs <= InitialLightMs
    ensures MinIntervalMs <= r.intervalMs <= InitialIntervalMs
  {
    if n == 0 then InitialTiming else NextTiming(TimingAfter(n - 1))
  }
}
