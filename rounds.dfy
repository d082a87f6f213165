/**
 The round/session state machine of the campus guessing game (script.js),
 as values: one `State` record holding the page's module-level variables and
 the few pieces of page state the handlers test, and one pure function per
 handler. `Step` dispatches the events the page can deliver (a map click, a
 press of one of the three buttons, one second of the countdown) and `Run`
 folds a sequence of them.
 */
module Rounds {

  /** GAME_ROUNDS.length: only the size of the round table matters here. */
  const ROUND_COUNT: nat := 20
  /** The countdown every round starts from, in seconds (ticks). */
  const ROUND_SECONDS: nat := 60
  /** The best score one round can award: Math.round(5000 * exp(-0.3 * d)) with d >= 0. */
  const MAX_POINTS: nat := 5000

  datatype Option<T> = None | Some(value: T)

  /** A point on the map, as Leaflet's click event reports it. */
  datatype LatLng = LatLng(lat: real, lng: real)

  /** What one round can award. */
  type Points = p: nat | p <= MAX_POINTS

  /**
   The score of a guess in a given round. The distance computation and the
   exponential decay are foreign floating-point code, so the model takes
   the scoring as a parameter and only relies on its range.
   */
  type ScoreFn = (nat, LatLng) -> Points

  /**
   The session. `guess` is userGuessMarker (None for null), `timerRunning`
   says whether timerInterval is an active interval, `resultShown` and
   `gameOverShown` are the two modals being displayed, `guessEnabled` is the
   guess button not being disabled, and `finalScore` is the number the
   game-over modal shows.
   */
  datatype State = State(
    currentRound: nat,
    totalScore: nat,
    timeLeft: int,
    guess: Option<LatLng>,
    resultShown: bool,
    timerRunning: bool,
    guessEnabled: bool,
    gameOverShown: bool,
    finalScore: nat)

  /** The module-level initial values, before the page has started a game. */
  const Initial: State :=
    State(0, 0, ROUND_SECONDS, None, false, false, false, false, 0)

  /** The events the page delivers to the state machine. */
  datatype Event =
    | Restart            // the restart button: startGame
    | Next               // the next button: loadRound(currentRound)
    | Second             // one second of wall-clock time
    | Click(at: LatLng)  // a click on the map: handleMapClick
    | Confirm            // the guess button: handleGuess, if it is enabled

  // ----- the handlers -----

  /** showGameOver: display the game-over modal with the total score. */
  function ShowGameOver(s: State): State {
    s.(gameOverShown := true, finalScore := s.totalScore)
  }

  /** resetTimer: cancel any countdown and start a fresh one. */
  function ResetTimer(s: State): State {
    s.(timeLeft := ROUND_SECONDS, timerRunning := true)
  }

  /**
   loadRound(i): past the end of the table only the game-over modal is
   shown; otherwise the guess is cleared, the button disabled, the result
   modal hidden and the countdown restarted. It does not set currentRound.
   */
  function LoadRound(s: State, i: nat): State {
    if i >= ROUND_COUNT then ShowGameOver(s)
    else ResetTimer(s.(guess := None, guessEnabled := false, resultShown := false))
  }

  /** startGame: round 0, score 0, then load round 0. */
  function StartGame(s: State): State {
    LoadRound(s.(currentRound := 0, totalScore := 0), 0)
  }

  /**
   handleGuess: stop the countdown, disable the button, add this round's
   score, show the result and move to the next round. The source reads
   GAME_ROUNDS[currentRound] and the marker's position, so it needs both.
   */
  function HandleGuess(s: State, score: ScoreFn): State
    requires s.guess.Some? && s.currentRound < ROUND_COUNT
  {
    s.(timerRunning := false,
       guessEnabled := false,
       totalScore := s.totalScore + score(s.currentRound, s.guess.value),
       resultShown := true,
       currentRound := s.currentRound + 1)
  }

  /**
   handleTimeUp: stop the countdown; with a guess it is handleGuess, without
   one the round ends with no points.
   */
  function TimeUp(s: State, score: ScoreFn): State
    requires s.currentRound < ROUND_COUNT
  {
    var stopped := s.(timerRunning := false);
    if stopped.guess.Some? then HandleGuess(stopped, score)
    else stopped.(resultShown := true, currentRound := s.currentRound + 1)
  }

  /**
   The interval callback: one second less, and time-up once nothing is
   left. It only runs while its interval is registered.
   */
  function Tick(s: State, score: ScoreFn): State
    requires s.timerRunning
    requires s.timeLeft <= 1 ==> s.currentRound < ROUND_COUNT
  {
    var t := s.(timeLeft := s.timeLeft - 1);
    if t.timeLeft <= 0 then TimeUp(t, score) else t
  }

  /** handleMapClick: ignored while the result is shown; else the new guess replaces the old. */
  function MapClick(s: State, at: LatLng): State {
    if s.resultShown then s
    else s.(guess := Some(at), guessEnabled := true)
  }

  // ----- the session as an event-driven machine -----

  /**
   The invariant of every state a started game can reach: the round index
   never passes the table, the countdown stays within one round's time and
   runs exactly while no result is shown, and the guess button is enabled
   exactly while a guess can still be confirmed.
   */
  ghost predicate Inv(s: State) {
    && s.currentRound <= ROUND_COUNT
    && 0 <= s.timeLeft <= ROUND_SECONDS
    && (s.timerRunning ==> s.currentRound < ROUND_COUNT && 1 <= s.timeLeft)
    && (s.resultShown <==> !s.timerRunning)
    && (s.guessEnabled <==> s.timerRunning && s.guess.Some?)
  }

  /**
   One event. A disabled button cannot be pressed, and a second passes
   without effect when no countdown is registered.
   */
  function Step(s: State, e: Event, score: ScoreFn): (r: State)
    requires Inv(s)
    ensures Inv(r)
  {
    match e
    case Restart => StartGame(s)
    case Next => LoadRound(s, s.currentRound)
    case Second => if s.timerRunning then Tick(s, score) else s
    case Click(at) => MapClick(s, at)
    case Confirm => if s.guessEnabled then HandleGuess(s, score) else s
  }

  /** The state after a sequence of events. */
  function Run(s: State, evs: seq<Event>, score: ScoreFn): (r: State)
    requires Inv(s)
    ensures Inv(r)
    decreases |evs|
  {
    if evs == [] then s else Run(Step(s, evs[0], score), evs[1..], score)
  }

  /** `n` seconds of wall-clock time with no other input. */
  function Seconds(n: nat): seq<Event> {
    if n == 0 then [] else [Second] + Seconds(n - 1)
  }

  // ----- the score ledger -----

  function Sum(xs: seq<nat>): nat {
    if xs == [] then 0 else xs[0] + Sum(xs[1..])
  }

  /** What resolving the round in `s` awards: its score with a guess, 0 without. */
  function Award(s: State, score: ScoreFn): Points {
    match s.guess
    case None => 0
    case Some(g) => score(s.currentRound, g)
  }

  /** Whether the event resolves the current round: a confirmed guess or the last second. */
  predicate Resolves(s: State, e: Event) {
    || (e.Confirm? && s.guessEnabled)
    || (e.Second? && s.timerRunning && s.timeLeft <= 1)
  }

  /**
   `awarded` lists the score of every round resolved since the game
   started: the total is their sum and the round index their number.
   */
  ghost predicate Accounts(s: State, awarded: seq<Points>) {
    s.totalScore == Sum(awarded) && s.currentRound == |awarded|
  }

  /** The ledger after one event: cleared by a restart, extended by a resolution. */
  function Ledger(s: State, e: Event, awarded: seq<Points>, score: ScoreFn): seq<Points> {
    if e.Restart? then []
    else if Resolves(s, e) then awarded + [Award(s, score)]
    else awarded
  }

  /** The ledger after a sequence of events. */
  function History(s: State, evs: seq<Event>, awarded: seq<Points>, score: ScoreFn): seq<Points>
    requires Inv(s)
    decreases |evs|
  {
    if evs == [] then awarded
    else History(Step(s, evs[0], score), evs[1..], Ledger(s, evs[0], awarded, score), score)
  }
}
