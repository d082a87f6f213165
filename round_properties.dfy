/**
 What the round/session state machine in `Rounds` guarantees: the effect
 of each handler, the countdown, the score ledger, and that a round is
 resolved at most once.
 */
module RoundProperties {
  import opened Rounds

  // ----- sums -----

  lemma {:induction false} SumAppend(xs: seq<nat>, x: nat)
    ensures Sum(xs + [x]) == Sum(xs) + x
  {
    if xs == [] {
      assert xs + [x] == [x];
    } else {
      assert (xs + [x])[1..] == xs[1..] + [x];
      SumAppend(xs[1..], x);
    }
  }

  lemma {:induction false} SumBound(xs: seq<Points>)
    ensures Sum(xs) <= MAX_POINTS * |xs|
  {
    if xs != [] {
      SumBound(xs[1..]);
    }
  }

  // ----- the handlers one at a time -----

  /** A new game is at round 0 with score 0, with an empty guess and a full countdown. */
  lemma StartGameResets(s: State)
    ensures var r := StartGame(s);
      && r.currentRound == 0 && r.totalScore == 0
      && r.guess == None && !r.guessEnabled && !r.resultShown
      && r.timerRunning && r.timeLeft == ROUND_SECONDS
      && r.gameOverShown == s.gameOverShown
  {
  }

  /** Loading past the end only shows game over: round, score, guess and timer stay. */
  lemma LoadPastEndShowsGameOver(s: State, i: nat)
    requires i >= ROUND_COUNT
    ensures LoadRound(s, i) == s.(gameOverShown := true, finalScore := s.totalScore)
  {
  }

  /** Loading a round in the table clears the guess, hides the result and restarts the countdown. */
  lemma LoadRoundStartsRound(s: State, i: nat)
    requires i < ROUND_COUNT
    ensures LoadRound(s, i) ==
      s.(guess := None, guessEnabled := false, resultShown := false,
         timeLeft := ROUND_SECONDS, timerRunning := true)
  {
  }

  /** A tick takes exactly one second off and calls time-up once nothing is left. */
  lemma TickCountsDown(s: State, score: ScoreFn)
    requires s.timerRunning && (s.timeLeft <= 1 ==> s.currentRound < ROUND_COUNT)
    ensures s.timeLeft > 1 ==> Tick(s, score) == s.(timeLeft := s.timeLeft - 1)
    ensures s.timeLeft <= 1 ==> Tick(s, score) == TimeUp(s.(timeLeft := s.timeLeft - 1), score)
  {
  }

  /** Time-up without a guess awards nothing and moves on by exactly one round. */
  lemma TimeUpWithoutGuessScoresZero(s: State, score: ScoreFn)
    requires s.currentRound < ROUND_COUNT && s.guess.None?
    ensures var r := TimeUp(s, score);
      && r.totalScore == s.totalScore
      && r.currentRound == s.currentRound + 1
      && !r.timerRunning && r.resultShown
  {
  }

  /** Time-up with a guess present is an explicit guess. */
  lemma TimeUpWithGuessIsGuess(s: State, score: ScoreFn)
    requires s.currentRound < ROUND_COUNT && s.guess.Some?
    ensures TimeUp(s, score) == HandleGuess(s, score)
  {
  }

  /** A guess adds exactly this round's score and moves on by exactly one round. */
  lemma GuessAwardsRoundScore(s: State, score: ScoreFn)
    requires s.guess.Some? && s.currentRound < ROUND_COUNT
    ensures var r := HandleGuess(s, score);
      && r.totalScore == s.totalScore + score(s.currentRound, s.guess.value)
      && r.currentRound == s.currentRound + 1
      && !r.timerRunning && !r.guessEnabled && r.resultShown
      && r.guess == s.guess && r.timeLeft == s.timeLeft
  {
  }

  /** A click while the result is shown changes nothing. */
  lemma ClickWhileResultShownIgnored(s: State, at: LatLng)
    requires s.resultShown
    ensures MapClick(s, at) == s
  {
  }

  /** Otherwise the click becomes the guess; round, score and countdown are untouched. */
  lemma ClickPlacesGuess(s: State, at: LatLng)
    requires !s.resultShown
    ensures var r := MapClick(s, at);
      && r.guess == Some(at) && r.guessEnabled
      && r.currentRound == s.currentRound && r.totalScore == s.totalScore
      && r.timeLeft == s.timeLeft && r.timerRunning == s.timerRunning
  {
  }

  /** The last click wins. */
  lemma LastClickWins(s: State, a: LatLng, b: LatLng)
    ensures MapClick(MapClick(s, a), b) == MapClick(s, b)
  {
  }

  // ----- the countdown -----

  /** With no other input, k seconds short of the end the countdown has only run down. */
  lemma {:induction false} CountdownRunsDown(s: State, k: nat, score: ScoreFn)
    requires Inv(s) && s.timerRunning && k < s.timeLeft
    ensures Run(s, Seconds(k), score) == s.(timeLeft := s.timeLeft - k)
    decreases k
  {
    if k > 0 {
      var t := Step(s, Second, score);
      assert t == s.(timeLeft := s.timeLeft - 1);
      CountdownRunsDown(t, k - 1, score);
    }
  }

  /** With no other input, the countdown resolves the round when it reaches 0. */
  lemma {:induction false} CountdownExpires(s: State, score: ScoreFn)
    requires Inv(s) && s.timerRunning
    ensures Run(s, Seconds(s.timeLeft), score) == TimeUp(s.(timeLeft := 0), score)
    decreases s.timeLeft
  {
    var n := s.timeLeft;
    var t := Step(s, Second, score);
    if n == 1 {
      assert Seconds(n) == [Second];
    } else {
      assert t == s.(timeLeft := n - 1);
      assert t.(timeLeft := 0) == s.(timeLeft := 0);
      CountdownExpires(t, score);
    }
  }

  /** Without a registered countdown, time passing changes nothing. */
  lemma {:induction false} IdleClock(s: State, n: nat, score: ScoreFn)
    requires Inv(s) && !s.timerRunning
    ensures Run(s, Seconds(n), score) == s
  {
    if n > 0 {
      IdleClock(s, n - 1, score);
    }
  }

  /**
   A freshly loaded round, left alone, runs exactly ROUND_SECONDS seconds:
   one second earlier it is still open; at that second it is resolved with
   no points, and later seconds change nothing.
   */
  lemma RoundTimesOut(s: State, k: nat, score: ScoreFn)
    requires Inv(s) && s.currentRound < ROUND_COUNT
    ensures var r := LoadRound(s, s.currentRound);
      && Inv(r)
      && Run(r, Seconds(ROUND_SECONDS - 1), score).timerRunning
      && Run(r, Seconds(ROUND_SECONDS), score) == TimeUp(r.(timeLeft := 0), score)
      && Run(r, Seconds(ROUND_SECONDS), score).totalScore == s.totalScore
      && Run(r, Seconds(ROUND_SECONDS), score).currentRound == s.currentRound + 1
      && Run(Run(r, Seconds(ROUND_SECONDS), score), Seconds(k), score) == Run(r, Seconds(ROUND_SECONDS), score)
  {
    var r := LoadRound(s, s.currentRound);
    CountdownRunsDown(r, ROUND_SECONDS - 1, score);
    CountdownExpires(r, score);
    IdleClock(Run(r, Seconds(ROUND_SECONDS), score), k, score);
  }

  // ----- the ledger -----

  /**
   One event keeps the books: the total is the sum of the scores awarded
   since the game started and the round index their number. A resolving
   event adds exactly that round's award and moves on exactly one round.
   */
  lemma StepAccounts(s: State, e: Event, awarded: seq<Points>, score: ScoreFn)
    requires Inv(s) && Accounts(s, awarded)
    ensures Accounts(Step(s, e, score), Ledger(s, e, awarded, score))
    ensures Resolves(s, e) ==>
      && Step(s, e, score).totalScore == s.totalScore + Award(s, score)
      && Step(s, e, score).currentRound == s.currentRound + 1
    ensures !Resolves(s, e) && !e.Restart? ==>
      && Step(s, e, score).totalScore == s.totalScore
      && Step(s, e, score).currentRound == s.currentRound
  {
    if Resolves(s, e) {
      SumAppend(awarded, Award(s, score));
    }
  }

  /** The books are kept over any sequence of events. */
  lemma {:induction false} RunAccounts(s: State, evs: seq<Event>, awarded: seq<Points>, score: ScoreFn)
    requires Inv(s) && Accounts(s, awarded)
    ensures Accounts(Run(s, evs, score), History(s, evs, awarded, score))
    decreases |evs|
  {
    if evs != [] {
      StepAccounts(s, evs[0], awarded, score);
      RunAccounts(Step(s, evs[0], score), evs[1..], Ledger(s, evs[0], awarded, score), score);
    }
  }

  /**
   After page load and any events, the total score is the sum of the
   awards of the rounds resolved since the last start, and the round index
   never passes the table.
   */
  lemma SessionAccounts(evs: seq<Event>, score: ScoreFn)
    ensures var s := StartGame(Initial);
      && Inv(s)
      && Run(s, evs, score).totalScore == Sum(History(s, evs, [], score))
      && Run(s, evs, score).currentRound == |History(s, evs, [], score)| <= ROUND_COUNT
  {
    RunAccounts(StartGame(Initial), evs, [], score);
  }

  /** The total never exceeds what the whole table can award. */
  lemma TotalBounded(s: State, awarded: seq<Points>)
    requires Inv(s) && Accounts(s, awarded)
    ensures s.totalScore <= MAX_POINTS * ROUND_COUNT
  {
    SumBound(awarded);
  }

  // ----- the end of a round and of the game -----

  /** Events that belong to one round: no next and no restart. */
  predicate WithinRound(evs: seq<Event>) {
    forall i :: 0 <= i < |evs| ==> !evs[i].Next? && !evs[i].Restart?
  }

  /** Once a round is resolved, nothing but next or restart has any effect. */
  lemma {:induction false} ResolvedRoundIsFrozen(s: State, evs: seq<Event>, score: ScoreFn)
    requires Inv(s) && !s.timerRunning && WithinRound(evs)
    ensures Run(s, evs, score) == s
    decreases |evs|
  {
    if evs != [] {
      assert !evs[0].Next? && !evs[0].Restart?;
      assert Step(s, evs[0], score) == s;
      ResolvedRoundIsFrozen(s, evs[1..], score);
    }
  }

  /**
   Within one round the round is resolved at most once: the index moves on
   by one at most, and when it does the countdown is stopped and the result
   shown.
   */
  lemma {:induction false} ResolvedAtMostOnce(s: State, evs: seq<Event>, score: ScoreFn)
    requires Inv(s) && WithinRound(evs)
    ensures var r := Run(s, evs, score);
      || r.currentRound == s.currentRound
      || (r.currentRound == s.currentRound + 1 && s.timerRunning && !r.timerRunning && r.resultShown)
    decreases |evs|
  {
    if evs != [] {
      assert !evs[0].Next? && !evs[0].Restart?;
      var t := Step(s, evs[0], score);
      assert WithinRound(evs[1..]);
      if t.currentRound == s.currentRound {
        ResolvedAtMostOnce(t, evs[1..], score);
      } else {
        ResolvedRoundIsFrozen(t, evs[1..], score);
      }
    }
  }

  /** The next button starts another round exactly while the table has rounds left. */
  lemma NextEndsGameAtTableEnd(s: State, score: ScoreFn)
    requires Inv(s)
    ensures Step(s, Next, score).timerRunning <==> s.currentRound < ROUND_COUNT
    ensures s.currentRound == ROUND_COUNT ==>
      Step(s, Next, score) == s.(gameOverShown := true, finalScore := s.totalScore)
  {
  }

  /**
   The game ends after exactly ROUND_COUNT resolved rounds, and the final
   score shown is the sum of their awards.
   */
  lemma GameOverAfterAllRounds(s: State, awarded: seq<Points>, score: ScoreFn)
    requires Inv(s) && Accounts(s, awarded)
    ensures Step(s, Next, score).timerRunning <==> |awarded| < ROUND_COUNT
    ensures |awarded| == ROUND_COUNT ==>
      var r := Step(s, Next, score);
      r.gameOverShown && r.finalScore == Sum(awarded) && r.currentRound == ROUND_COUNT
  {
  }
}
