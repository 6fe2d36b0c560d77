/** The button racing program's global state as one object: its fields are the
    module-level globals, and each method performs one atomic step of a button
    callback or of the game loop, proved against the rule functions. */
module ButtonRacingGlobals {
  import opened ButtonRacing
  import ButtonRacingProperties

  /** Why the game loop stopped. */
  datatype LoopExit =
    | Exhausted    // no player had lives left: the game ended
    | Interrupted  // the reset signal was raised by a long press
    | Pending      // the schedule of rounds given ran out while the game was still on

  class GameState {
    var state: Phase
    var lives: PerPlayer<int>
    var pressed: PerPlayer<bool>
    var lastPressTime: PerPlayer<int>
    var pressTime: map<Player, int>
    var gameStart: Option<int>
    var gameEnd: Option<int>
    var reset: bool
    var audio: seq<AudioCommand>

    /** The shared state as a value. */
    function Snapshot(): Game
      reads this
    {
      Game(state, lives, pressed, lastPressTime, pressTime, gameStart, gameEnd, reset, audio)
    }

    predicate Valid()
      reads this
    {
      Snapshot().Valid()
    }

    /** The globals as the program defines them at start-up. */
    constructor ()
      ensures Snapshot() == Initial && Valid()
    {
      state := Waiting;
      lives := PerPlayer(InitialLives, InitialLives);
      pressed := PerPlayer(false, false);
      lastPressTime := PerPlayer(0, 0);
      pressTime := map[];
      gameStart := None;
      gameEnd := None;
      reset := false;
      audio := [];
    }

    method StartGame(now: int)
      modifies this
      ensures Snapshot() == Start(old(Snapshot()), now)
      ensures old(Valid()) ==> Valid()
    {
      state := Off;
      audio := audio + [StartBeeps];
      gameStart := Some(now);
    }

    method ResetGame()
      modifies this
      ensures Snapshot() == Reset(old(Snapshot()))
      ensures Valid() && state == Waiting
    {
      lives := PerPlayer(InitialLives, InitialLives);
      state := Waiting;
      gameStart := None;
      gameEnd := None;
      pressed := pressed.Set(P1, false).Set(P2, false);
      audio := audio + [Stop];
    }

    /** The button callback; `started` tells that it started a game, which
        spawns a new game loop. */
    method ButtonEvent(e: Event) returns (started: bool)
      modifies this
      ensures Snapshot() == Handle(old(Snapshot()), e)
      ensures old(Valid()) ==> Valid()
      ensures started == StartsGame(old(Snapshot()), e)
    {
      started := false;
      var now, player := e.time, e.player;
      // software debounce
      if now - lastPressTime.Get(player) < DebounceMs {
        return;
      }
      lastPressTime := lastPressTime.Set(player, now);
      if e.level == High {
        started := PressButton(player, now);
      } else {
        ReleaseButton(player, now);
      }
    }

    /** The rising-edge branch of the callback. */
    method PressButton(player: Player, now: int) returns (started: bool)
      modifies this
      ensures Snapshot() == Press(old(Snapshot()), player, now)
      ensures old(Valid()) ==> Valid()
      ensures started <==> (player == P1 &&
        (old(state) == Waiting || (old(state) == Ended && !InCoolDown(old(Snapshot()), now))))
    {
      PressKeepsInvariants(Snapshot(), player, now);
      started := false;
      var st := state;
      pressTime := pressTime[player := now];
      ghost var g1 := Snapshot();
      assert Press(old(Snapshot()), player, now) ==
        if player == P1 && st == Waiting then Start(g1, now)
        else if player == P1 && st == Ended then EndScreenPress(g1, now)
        else RoundPress(g1, player);
      if player == P1 {
        if st == Waiting {
          StartGame(now);
          started := true;
          return;
        }
        if st == Ended {
          if Truthy(gameEnd) && now - gameEnd.value < EndDisplayMs {
            return;
          }
          ResetGame();
          StartGame(now);
          started := true;
          return;
        }
      }
      RoundPressButton(player);
    }

    /** The in-game judgement of a press. */
    method RoundPressButton(player: Player)
      modifies this
      ensures Snapshot() == RoundPress(old(Snapshot()), player)
    {
      if IsRoundPhase(state) && lives.Get(player) > 0 && !pressed.Get(player) {
        if state == Green {
          pressed := pressed.Set(player, true);
        } else {
          lives := lives.Set(player, lives.Get(player) - 1);
          pressed := pressed.Set(player, true);
        }
      }
    }

    /** The falling-edge branch of the callback: only player 1's releases matter. */
    method ReleaseButton(player: Player, now: int)
      modifies this
      ensures Snapshot() == Release(old(Snapshot()), player, now)
      ensures old(Valid()) ==> Valid()
    {
      if player == P1 && P1 in pressTime && pressTime[P1] != 0 {
        var duration := now - pressTime[P1];
        pressTime := pressTime - {P1};
        if duration >= LongPressMs {
          reset := true;
          ResetGame();
        }
      }
    }

    method EnterOff()
      modifies this
      ensures Snapshot() == EnterOffPhase(old(Snapshot()))
      ensures old(Valid()) && IsRoundPhase(old(state)) ==> Valid()
    {
      state := Off;
      pressed := pressed.Set(P1, false).Set(P2, false);
    }

    method ShowLight(c: Colour)
      modifies this
      ensures Snapshot() == ShowLightPhase(old(Snapshot()), c)
      ensures old(Valid()) && IsRoundPhase(old(state)) ==> Valid()
    {
      state := if c == GreenLight then Green else Red;
    }

    /** The light has expired; a missed green costs each player who is still
        alive and did not press one life. */
    method ExpireLight(c: Colour)
      modifies this
      ensures Snapshot() == Expire(old(Snapshot()), c)
      ensures old(Valid()) && IsRoundPhase(old(state)) ==> Valid()
    {
      if c == GreenLight {
        var players := [P1, P2];
        for i := 0 to |players|
          invariant Snapshot() == old(Snapshot()).(lives := lives)
          invariant forall j :: 0 <= j < i ==>
            lives.Get(players[j]) == MissedGreen(old(Snapshot()), players[j])
          invariant forall j :: i <= j < |players| ==>
            lives.Get(players[j]) == old(lives).Get(players[j])
        {
          var p := players[i];
          if lives.Get(p) > 0 && !pressed.Get(p) {
            lives := lives.Set(p, lives.Get(p) - 1);
          }
        }
        assert players[0] == P1 && players[1] == P2;
      }
    }

    method EndGame(now: int)
      modifies this
      ensures Snapshot() == Finish(old(Snapshot()), now)
      ensures old(Valid()) && IsRoundPhase(old(state)) && !old(Snapshot()).AnyAlive() ==> Valid()
    {
      state := Ended;
      gameEnd := Some(now);
      audio := audio + [EndSignal];
    }

    /** An interruptible wait: the events of one phase are delivered in order
        until they run out or the reset signal is raised. */
    method Wait(evs: seq<Event>) returns (consumed: nat)
      requires Valid() && IsRoundPhase(state) && !reset
      modifies this
      ensures Valid()
      ensures consumed <= |evs| && Snapshot() == Replay(old(Snapshot()), evs[..consumed])
      ensures consumed < |evs| ==> reset
      ensures reset ==> state == Waiting
      ensures !reset ==> state == old(state)
      ensures EndSignals(audio) == EndSignals(old(audio))
    {
      consumed := 0;
      while consumed < |evs| && !reset
        invariant consumed <= |evs|
        invariant Snapshot() == Replay(old(Snapshot()), evs[..consumed])
        invariant reset ==> state == Waiting
        decreases |evs| - consumed
      {
        var started := ButtonEvent(evs[consumed]);
        // no press during a round can start another game loop
        assert !started;
        assert evs[..consumed + 1][..consumed] == evs[..consumed];
        consumed := consumed + 1;
      }
    }

    /** One iteration of the game loop's body; `completed` is false when a
        reset interrupted it. */
    method PlayRound(round: Round) returns (completed: bool)
      requires Valid() && IsRoundPhase(state) && !reset
      modifies this
      ensures Valid()
      ensures completed ==> !reset && Snapshot() == PlayedRound(old(Snapshot()), round)
      ensures completed ==> state == PhaseOf(round.colour)
      ensures completed ==> forall p :: old(lives).Get(p) - 1 <= lives.Get(p) <= old(lives).Get(p)
      ensures !completed ==> reset && state == Waiting
      ensures EndSignals(audio) == EndSignals(old(audio))
    {
      EnterOff();
      var n := Wait(round.offEvents);
      if reset {
        return false;
      }
      assert round.offEvents[..n] == round.offEvents;
      ShowLight(round.colour);
      n := Wait(round.lightEvents);
      if reset {
        return false;
      }
      assert round.lightEvents[..n] == round.lightEvents;
      ExpireLight(round.colour);
      completed := true;
      ButtonRacingProperties.PlayedRoundKeepsTheGame(old(Snapshot()), round);
    }

    /** The next round of the schedule, played from the state that the rounds
        before it led to. */
    method PlayNext(ghost start: Game, rounds: seq<Round>, played: nat) returns (completed: bool)
      requires played < |rounds| && Valid() && IsRoundPhase(state) && !reset
      requires Snapshot() == PlayedRounds(start, rounds[..played]) && AliveBeforeEach(start, rounds[..played])
      requires Snapshot().AnyAlive()
      modifies this
      ensures Valid()
      ensures completed ==> && !reset && IsRoundPhase(state)
                            && Snapshot() == PlayedRounds(start, rounds[..played + 1])
                            && AliveBeforeEach(start, rounds[..played + 1])
                            && forall p :: old(lives).Get(p) - 1 <= lives.Get(p) <= old(lives).Get(p)
      ensures !completed ==> reset && state == Waiting
      ensures EndSignals(audio) == EndSignals(old(audio))
    {
      ButtonRacingProperties.AliveBeforeEachStep(start, rounds, played);
      completed := PlayRound(rounds[played]);
      if completed {
        ButtonRacingProperties.PlayedRoundsStep(start, rounds, played);
      }
    }

    /** The `while` loop of `game_loop`: rounds are played while no reset was
        signalled and some player has lives left.  `exit` is `Exhausted` when
        the loop ran out of lives, before the game is ended. */
    method RunRounds(ghost start: Game, rounds: seq<Round>) returns (exit: LoopExit, timing: Timing, played: nat)
      requires Valid() && IsRoundPhase(state) && !reset && Snapshot() == start
      modifies this
      ensures Valid()
      ensures played <= |rounds| && timing == TimingAfter(played)
      ensures AliveBeforeEach(start, rounds[..played])
      ensures exit != Interrupted ==>
        && Snapshot() == PlayedRounds(start, rounds[..played]) && !reset && IsRoundPhase(state)
        && forall p :: old(lives).Get(p) - played <= lives.Get(p) <= old(lives).Get(p)
      ensures exit == Pending ==> played == |rounds| && Snapshot().AnyAlive()
      ensures exit == Exhausted ==> !Snapshot().AnyAlive()
      ensures exit == Interrupted ==> played < |rounds| && reset && state == Waiting
      ensures EndSignals(audio) == EndSignals(old(audio))
    {
      timing := InitialTiming;
      played := 0;
      while !reset && (lives.p1 > 0 || lives.p2 > 0)
        invariant !reset && played <= |rounds| && timing == TimingAfter(played)
        invariant Snapshot() == PlayedRounds(start, rounds[..played])
        invariant AliveBeforeEach(start, rounds[..played])
        decreases |rounds| - played
      {
        ButtonRacingProperties.PlayedRoundsKeepTheGame(start, rounds[..played]);
        if played == |rounds| {
          exit := Pending;
          return;
        }
        var completed := PlayNext(start, rounds, played);
        if !completed {
          exit := Interrupted;
          return;
        }
        timing := NextTiming(timing);
        played := played + 1;
      }
      ButtonRacingProperties.PlayedRoundsKeepTheGame(start, rounds[..played]);
      exit := Exhausted;
    }

    /** `game_loop`: the reset signal is cleared, the rounds are played, and
        leaving the loop without a reset ends the game. */
    method GameLoop(rounds: seq<Round>, endTime: int) returns (exit: LoopExit, timing: Timing, played: nat, ghost start: Game)
      requires Valid() && state == Off
      modifies this
      ensures Valid()
      ensures start == old(Snapshot()).(reset := false)
      ensures played <= |rounds| && timing == TimingAfter(played)
      // some player had lives before each round that was played
      ensures AliveBeforeEach(start, rounds[..played])
      ensures exit == Pending ==>
        && played == |rounds| && Snapshot() == PlayedRounds(start, rounds)
        && !reset && Snapshot().AnyAlive()
      ensures exit == Exhausted ==>
        && Snapshot() == Finish(PlayedRounds(start, rounds[..played]), endTime)
        && !reset && lives == NoLives && gameEnd == Some(endTime)
      ensures exit == Exhausted <==> state == Ended
      ensures exit == Interrupted ==> played < |rounds| && reset && state == Waiting
      // each round cost each player at most one life, and none came back
      ensures exit != Interrupted ==> forall p :: old(lives).Get(p) - played <= lives.Get(p) <= old(lives).Get(p)
      ensures exit == Exhausted ==> played >= old(lives).p1 && played >= old(lives).p2
      ensures EndSignals(audio) == EndSignals(old(audio)) + (if exit == Exhausted then 1 else 0)
    {
      reset := false;
      start := Snapshot();
      exit, timing, played := RunRounds(start, rounds);
      if exit == Pending {
        assert rounds[..played] == rounds;
      } else if exit == Exhausted {
        ButtonRacingProperties.LosingAllLivesTakesRounds(old(lives), lives, played);
        EndGame(endTime);
      }
    }
  }
}
