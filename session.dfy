/**
 The game page as an object: the module-level variables of script.js are
 the fields of a `Session`, and each handler is a method that updates them
 in place, calling the others as the script does. Every method states its
 new state as the matching function of `Rounds` applied to the old one, so
 everything proved in `RoundProperties` holds of the object. The ghost
 field `awarded` lists the score of each round resolved since the game
 started.
 */
module GameSession {
  import Rounds
  import RoundProperties

  class Session {
    const score: Rounds.ScoreFn
    var currentRound: nat
    var totalScore: nat
    var timeLeft: int
    var guess: Rounds.Option<Rounds.LatLng>
    var resultShown: bool
    var timerRunning: bool
    var guessEnabled: bool
    var gameOverShown: bool
    var finalScore: nat
    ghost var awarded: seq<Rounds.Points>

    /** The session's fields as a value. */
    function Snap(): Rounds.State
      reads this
    {
      Rounds.State(currentRound, totalScore, timeLeft, guess, resultShown,
                   timerRunning, guessEnabled, gameOverShown, finalScore)
    }

    ghost predicate Valid()
      reads this
    {
      Rounds.Inv(Snap()) && Rounds.Accounts(Snap(), awarded)
    }

    /** Page load: the module-level initial values, then startGame. */
    constructor (score: Rounds.ScoreFn)
      ensures this.score == score
      ensures Valid() && awarded == []
      ensures Snap() == Rounds.StartGame(Rounds.Initial)
    {
      this.score := score;
      currentRound, totalScore, timeLeft := 0, 0, Rounds.ROUND_SECONDS;
      guess := Rounds.None;
      resultShown, timerRunning, guessEnabled, gameOverShown := false, false, false, false;
      finalScore := 0;
      awarded := [];
      new;
      StartGame();
    }

    method StartGame()
      modifies this
      ensures Valid() && awarded == []
      ensures Snap() == Rounds.StartGame(old(Snap()))
    {
      currentRound := 0;
      totalScore := 0;
      awarded := [];
      LoadRound(0);
    }

    /**
     Both callers pass the current round, so a round inside the table is
     only loaded while the round that will be scored is inside it too.
     */
    method LoadRound(i: nat)
      requires Rounds.Accounts(Snap(), awarded)
      requires if i < Rounds.ROUND_COUNT then currentRound < Rounds.ROUND_COUNT else Valid()
      modifies this
      ensures Valid() && awarded == old(awarded)
      ensures Snap() == Rounds.LoadRound(old(Snap()), i)
    {
      if i >= Rounds.ROUND_COUNT {
        ShowGameOver();
        return;
      }
      guess := Rounds.None;
      guessEnabled := false;
      resultShown := false;
      ResetTimer();
    }

    method ResetTimer()
      modifies this
      ensures awarded == old(awarded)
      ensures Snap() == Rounds.ResetTimer(old(Snap()))
    {
      timeLeft := Rounds.ROUND_SECONDS;
      timerRunning := true;
    }

    /** The interval callback; it only fires while the countdown is registered. */
    method Tick()
      requires Valid() && timerRunning
      modifies this
      ensures Valid()
      ensures Snap() == Rounds.Tick(old(Snap()), score)
      ensures awarded == Rounds.Ledger(old(Snap()), Rounds.Second, old(awarded), score)
    {
      timeLeft := timeLeft - 1;
      if timeLeft <= 0 {
        HandleTimeUp();
      }
    }

    /** Called with the countdown at 0 and the round still open. */
    method HandleTimeUp()
      requires Rounds.Accounts(Snap(), awarded)
      requires currentRound < Rounds.ROUND_COUNT && 0 <= timeLeft <= Rounds.ROUND_SECONDS
      requires guessEnabled ==> guess.Some?
      modifies this
      ensures Valid()
      ensures Snap() == Rounds.TimeUp(old(Snap()), score)
      ensures awarded == old(awarded) + [Rounds.Award(old(Snap()), score)]
    {
      timerRunning := false;
      if guess.Some? {
        HandleGuess();
      } else {
        resultShown := true;
        RoundProperties.SumAppend(awarded, 0);
        awarded := awarded + [0];
        currentRound := currentRound + 1;
      }
    }

    method HandleMapClick(at: Rounds.LatLng)
      requires Valid()
      modifies this
      ensures Valid() && awarded == old(awarded)
      ensures Snap() == Rounds.MapClick(old(Snap()), at)
    {
      if resultShown {
        return;
      }
      guess := Rounds.Some(at);
      guessEnabled := true;
    }

    /** Needs a placed guess and a round inside the table, as the script does. */
    method HandleGuess()
      requires Rounds.Accounts(Snap(), awarded)
      requires guess.Some? && currentRound < Rounds.ROUND_COUNT
      requires 0 <= timeLeft <= Rounds.ROUND_SECONDS
      modifies this
      ensures Valid()
      ensures Snap() == Rounds.HandleGuess(old(Snap()), score)
      ensures awarded == old(awarded) + [Rounds.Award(old(Snap()), score)]
    {
      timerRunning := false;
      guessEnabled := false;
      var points := score(currentRound, guess.value);
      totalScore := totalScore + points;
      RoundProperties.SumAppend(awarded, points);
      awarded := awarded + [points];
      resultShown := true;
      currentRound := currentRound + 1;
    }

    method ShowGameOver()
      modifies this
      ensures awarded == old(awarded)
      ensures old(Valid()) ==> Valid()
      ensures Snap() == Rounds.ShowGameOver(old(Snap()))
    {
      gameOverShown := true;
      finalScore := totalScore;
    }

    /** The guess button: a click reaches handleGuess only while the button is enabled. */
    method PressGuess()
      requires Valid()
      modifies this
      ensures Valid()
      ensures Snap() == Rounds.Step(old(Snap()), Rounds.Confirm, score)
      ensures awarded == Rounds.Ledger(old(Snap()), Rounds.Confirm, old(awarded), score)
    {
      if guessEnabled {
        HandleGuess();
      }
    }

    /** The next button: load the round the index now points at. */
    method PressNext()
      requires Valid()
      modifies this
      ensures Valid() && awarded == old(awarded)
      ensures Snap() == Rounds.Step(old(Snap()), Rounds.Next, score)
    {
      LoadRound(currentRound);
    }
  }

  /** Page load, a click on the map and the guess button score the click in round 0. */
  method GuessFirstRound(score: Rounds.ScoreFn, at: Rounds.LatLng) returns (total: nat, round: nat)
    ensures total == score(0, at) && round == 1
  {
    var session := new Session(score);
    session.HandleMapClick(at);
    session.PressGuess();
    total, round := session.totalScore, session.currentRound;
  }
}
