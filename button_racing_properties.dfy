/** Properties of the button racing rules that relate several steps. */
module ButtonRacingProperties {
  import opened ButtonRacing

  // ---------------------------------------------------------------------
  // At most one life per player per round

  /** The budget of a round: the player has lost at most one life since the
      round began with `budget` lives, and a loss has marked the player as
      pressed, so that no second loss can follow. */
  predicate WithinBudget(g: Game, p: Player, budget: int) {
    g.lives.Get(p) >= budget - 1 && (g.lives.Get(p) < budget ==> g.pressed.Get(p))
  }

  lemma {:induction false} ReplayKeepsBudget(g: Game, evs: seq<Event>, p: Player, budget: int)
    requires budget <= InitialLives && WithinBudget(g, p, budget)
    ensures WithinBudget(Replay(g, evs), p, budget)
    decreases |evs|
  {
    if evs != [] {
      ReplayKeepsBudget(g, evs[..|evs| - 1], p, budget);
    }
  }

  /** Whatever the presses of both players, a player loses at most one life in a round. */
  lemma RoundCostsAtMostOneLife(g: Game, round: Round, p: Player)
    requires g.Valid()
    ensures PlayedRound(g, round).lives.Get(p) >= g.lives.Get(p) - 1
  {
    var budget := g.lives.Get(p);
    var offDone := Replay(EnterOffPhase(g), round.offEvents);
    ReplayKeepsBudget(EnterOffPhase(g), round.offEvents, p, budget);
    ReplayKeepsBudget(ShowLightPhase(offDone, round.colour), round.lightEvents, p, budget);
  }

  /** Playing the first n + 1 rounds is playing the first n, then round n. */
  lemma PlayedRoundsStep(g: Game, rounds: seq<Round>, n: nat)
    requires n < |rounds|
    ensures PlayedRounds(g, rounds[..n + 1]) == PlayedRound(PlayedRounds(g, rounds[..n]), rounds[n])
  {
    assert rounds[..n + 1][..n] == rounds[..n];
  }

  /** One more round on which some player was alive before it. */
  lemma AliveBeforeEachStep(g: Game, rounds: seq<Round>, n: nat)
    requires n < |rounds| && AliveBeforeEach(g, rounds[..n]) && PlayedRounds(g, rounds[..n]).AnyAlive()
    ensures AliveBeforeEach(g, rounds[..n + 1])
  {
    assert rounds[..n + 1][..n] == rounds[..n];
  }

  /** A round played with no reset keeps the game well-formed and on, in the
      phase of the colour drawn; each player loses at most one life and none
      comes back. */
  lemma PlayedRoundKeepsTheGame(g: Game, round: Round)
    requires g.Valid() && IsRoundPhase(g.state) && !PlayedRound(g, round).reset
    ensures var r := PlayedRound(g, round);
      && r.Valid() && r.state == PhaseOf(round.colour)
      && forall p :: g.lives.Get(p) - 1 <= r.lives.Get(p) <= g.lives.Get(p)
  {
    RoundCostsAtMostOneLife(g, round, P1);
    RoundCostsAtMostOneLife(g, round, P2);
  }

  /** n rounds played with no reset keep the game well-formed and on, and cost
      each player at most n lives. */
  lemma {:induction false} PlayedRoundsKeepTheGame(g: Game, rounds: seq<Round>)
    requires g.Valid() && IsRoundPhase(g.state) && !PlayedRounds(g, rounds).reset
    ensures var r := PlayedRounds(g, rounds);
      && r.Valid() && IsRoundPhase(r.state)
      && forall p :: g.lives.Get(p) - |rounds| <= r.lives.Get(p) <= g.lives.Get(p)
    decreases |rounds|
  {
    if rounds != [] {
      var prefix := rounds[..|rounds| - 1];
      PlayedRoundsKeepTheGame(g, prefix);
      PlayedRoundKeepsTheGame(PlayedRounds(g, prefix), rounds[|rounds| - 1]);
    }
  }

  /** When each player loses at most one life per round, losing every life
      takes at least as many rounds as either player had lives. */
  lemma LosingAllLivesTakesRounds(before: PerPlayer<int>, after: PerPlayer<int>, rounds: int)
    requires forall p :: before.Get(p) - rounds <= after.Get(p)
    requires after.p1 <= 0 && after.p2 <= 0
    ensures rounds >= before.p1 && rounds >= before.p2
  {
    assert before.Get(P1) - rounds <= after.Get(P1);
    assert before.Get(P2) - rounds <= after.Get(P2);
  }

  // ---------------------------------------------------------------------
  // Lives within a session

  /** Once a round is under way and no reset was signalled, lives never go up and never go negative. */
  lemma {:induction false} LivesNeverRiseWithinSession(g: Game, evs: seq<Event>, p: Player)
    requires g.Valid() && IsRoundPhase(g.state) && !Replay(g, evs).reset
    ensures 0 <= Replay(g, evs).lives.Get(p) <= g.lives.Get(p)
    ensures Replay(g, evs).state == g.state
    decreases |evs|
  {
    if evs != [] {
      var prefix := evs[..|evs| - 1];
      assert !Replay(g, prefix).reset;
      LivesNeverRiseWithinSession(g, prefix, p);
    }
  }

  // ---------------------------------------------------------------------
  // Debounce

  /** The number of events of player p that the debounce accepts when evs is delivered. */
  function Accepted(g: Game, evs: seq<Event>, p: Player): nat
    decreases |evs|
  {
    if evs == [] then 0
    else
      var prefix := evs[..|evs| - 1];
      var e := evs[|evs| - 1];
      Accepted(g, prefix, p) + (if e.player == p && !Bounced(Replay(g, prefix), e) then 1 else 0)
  }

  /** Of the events of one player that fall within one debounce window, at most one is accepted. */
  lemma {:induction false} DebounceWindow(g: Game, evs: seq<Event>, p: Player, t0: int)
    requires forall i :: 0 <= i < |evs| && evs[i].player == p ==> t0 <= evs[i].time < t0 + DebounceMs
    ensures Accepted(g, evs, p) <= 1
    ensures Accepted(g, evs, p) == 1 ==> Replay(g, evs).lastPressTime.Get(p) >= t0
    decreases |evs|
  {
    if evs != [] {
      var prefix := evs[..|evs| - 1];
      assert forall i :: 0 <= i < |prefix| ==> prefix[i] == evs[i];
      DebounceWindow(g, prefix, p, t0);
    }
  }

  // ---------------------------------------------------------------------
  // Long press

  /** A press by player 1 that starts a game (in Waiting, or in Ended once the
      end screen's cool-down is over), followed by its release: the release
      resets the game exactly when the press lasted at least the long-press
      threshold. A shorter release, bounced or not, leaves the new game running
      and the reset signal as it was; a bounced one does not even consume the
      press time. */
  lemma PressAndRelease(g: Game, t1: int, t2: int)
    requires g.Valid()
    requires g.state == Waiting || (g.state == Ended && !InCoolDown(g, t1))
    requires t1 - g.lastPressTime.Get(P1) >= DebounceMs && t1 != 0
    ensures var r := Replay(g, [Event(P1, High, t1), Event(P1, Low, t2)]);
      && (t2 - t1 >= LongPressMs ==>
            r.reset && r.state == Waiting && r.lives == FullLives && r.gameStart == None)
      && (t2 - t1 < LongPressMs ==>
            r.reset == g.reset && r.state == Off && r.lives == FullLives && r.gameStart == Some(t1))
      && (t2 - t1 < DebounceMs ==> r.pressTime == g.pressTime[P1 := t1])
  {
    var evs := [Event(P1, High, t1), Event(P1, Low, t2)];
    assert evs[..1] == [evs[0]] && evs[..1][..0] == [];
    var g1 := Handle(g, evs[0]);
    assert Replay(g, evs[..1]) == g1;
    assert g1.state == Off && g1.pressTime == g.pressTime[P1 := t1] && g1.lastPressTime.Get(P1) == t1;
    assert g1.reset == g.reset && g1.lives == FullLives && g1.gameStart == Some(t1);
    assert Replay(g, evs) == Handle(g1, evs[1]);
    if t2 - t1 < DebounceMs {
      assert Bounced(g1, evs[1]);
    } else {
      var g2 := g1.(lastPressTime := g1.lastPressTime.Set(P1, t2));
      assert HasPressTime(g2) && g2.pressTime[P1] == t1;
      assert Handle(g1, evs[1]) == Release(g2, P1, t2);
    }
  }

  // ---------------------------------------------------------------------
  // A green round

  /** Player 1 presses during green and player 2 does not press at all: player 1
      keeps every life, player 2 loses exactly one. */
  lemma GreenRoundScenario(g: Game, t: int)
    requires g.Valid() && IsRoundPhase(g.state) && g.lives.p1 > 0 && g.lives.p2 > 0
    requires t - g.lastPressTime.Get(P1) >= DebounceMs
    ensures var r := PlayedRound(g, Round([], GreenLight, [Event(P1, High, t)]));
      && r.state == Green && r.pressed.Get(P1)
      && r.lives.Get(P1) == g.lives.Get(P1) && r.lives.Get(P2) == g.lives.Get(P2) - 1
  {
    var lit := ShowLightPhase(Replay(EnterOffPhase(g), []), GreenLight);
    var evs := [Event(P1, High, t)];
    assert evs[..0] == [];
    assert Replay(lit, evs) == Handle(lit, evs[0]);
  }

  // ---------------------------------------------------------------------
  // The difficulty ramp

  /** After n completed rounds each duration is its initial value less n steps,
      clamped at its floor, independently of the other. */
  lemma {:induction false} TimingAfterClosedForm(n: nat)
    ensures TimingAfter(n) == Timing(Max(MinLightMs, InitialLightMs - n * DeltaLightMs),
                                     Max(MinIntervalMs, InitialIntervalMs - n * DeltaIntervalMs))
  {
    if n > 0 {
      TimingAfterClosedForm(n - 1);
      assert TimingAfter(n) == NextTiming(TimingAfter(n - 1));
      ClampStep(MinLightMs, InitialLightMs - (n - 1) * DeltaLightMs, DeltaLightMs);
      ClampStep(MinIntervalMs, InitialIntervalMs - (n - 1) * DeltaIntervalMs, DeltaIntervalMs);
      assert (n - 1) * DeltaLightMs + DeltaLightMs == n * DeltaLightMs;
      assert (n - 1) * DeltaIntervalMs + DeltaIntervalMs == n * DeltaIntervalMs;
    }
  }

  /** Clamping at a floor, then stepping down and clamping again, is one clamp. */
  lemma ClampStep(floor: int, a: int, d: int)
    requires d >= 0
    ensures Max(floor, Max(floor, a) - d) == Max(floor, a - d)
  {
  }

  /** The ramp never speeds back up and never passes its floors. */
  lemma {:induction false} TimingMonotone(m: nat, n: nat)
    requires m <= n
    ensures MinLightMs <= TimingAfter(n).lightMs <= TimingAfter(m).lightMs <= InitialLightMs
    ensures MinIntervalMs <= TimingAfter(n).intervalMs <= TimingAfter(m).intervalMs <= InitialIntervalMs
  {
    TimingAfterClosedForm(m);
    TimingAfterClosedForm(n);
  }
}
