# Campus guessing game: the round/session state machine

The game shows a photo of a campus location. The player clicks the map to
place a guess and confirms it, or lets a 60-second countdown run out. The
round is then scored and the next round follows, until the 20-entry round
table is exhausted. This project models the session logic of `script.js`
and proves its sequencing and accumulation properties:

- the round index and the total score;
- the countdown;
- the guess marker;
- the result and game-over modals;
- the guess button, whose disabled state keeps a round from being
  confirmed twice.

Three modules:

- `Rounds` (rounds.dfy) holds the session state as a value. It has one
  pure function per handler (`StartGame`, `LoadRound`, `ResetTimer`,
  `Tick`, `TimeUp`, `MapClick`, `HandleGuess`, `ShowGameOver`), the events
  the page delivers (`Step`, `Run`), the invariant `Inv` of every reachable
  state, and the score ledger (`Accounts`, `Ledger`, `History`).
- `RoundProperties` (round_properties.dfy) holds the lemmas about those
  functions.
- `GameSession` (session.dfy) holds the class `Session`. Its fields are the
  script's module-level variables. Each method updates them in place and
  calls the other methods the way the script's functions call each other.
  Every method's postcondition is `Snap() == Rounds.F(old(Snap()))` for its
  handler `F`. So the lemmas of `RoundProperties` hold of the object. The
  ghost field `awarded` lists the score of every round resolved since the
  game started. `Valid()` ties it to the fields: the total is its sum and
  the round index its length.

Notes on what the script does, which the model follows:

- `handleGuess` reads `GAME_ROUNDS[currentRound]` and the marker's
  position, so it needs both to exist. The script never calls it
  otherwise: the button is enabled only while a guess can still be
  confirmed, and time-up checks for the marker first. The model states
  this as a precondition. `handleTimeUp` likewise needs the round to lie
  inside the table.
- `loadRound(i)` never sets `currentRound`. The index `i` only decides
  between "start a round" and "game over" (and which photo is shown). Both
  callers pass `currentRound`.
- `startGame` hides the result modal (through `loadRound`) but never the
  game-over modal. The model keeps `gameOverShown` as it was. The page's
  markup is not part of this model, so this may be harmless.
- After a resolution the guess marker stays on the map. Only the next
  `loadRound` clears it.
- The round is resolved only by a confirmed guess or by the countdown.
  There is no coordinate validation, no "already resolved" signal, no
  separate `advance` operation and no tiered scoring policy: the script
  has none of these. The Next button calling `loadRound(currentRound)`
  plays the part of advancing.

## Model

| member | source | states |
|---|---|---|
| `RoundProperties.StartGameResets` | script.js:46-53 | a new game is at round 0 with score 0, the guess cleared, the button disabled, the result hidden and a full 60-second countdown running; the game-over flag is left as it was |
| `RoundProperties.LoadPastEndShowsGameOver` | script.js:63-64 | loading an index at or past the table's end only shows game over with the total score; round, score, guess, timer and result display are unchanged |
| `RoundProperties.LoadRoundStartsRound` | script.js:63-77 | loading an index inside the table clears the guess, disables the button, hides the result and restarts the countdown at 60, and changes nothing else |
| `RoundProperties.TickCountsDown` | script.js:83-87 | a tick takes exactly one second off; when that leaves 0 or less it is exactly time-up on the decremented state |
| `RoundProperties.TimeUpWithoutGuessScoresZero` | script.js:96-106 | time-up with no guess keeps the total, advances the round by exactly 1, stops the countdown and shows the result |
| `RoundProperties.TimeUpWithGuessIsGuess` | script.js:96-99 | time-up with a guess present has exactly the effect of an explicit guess |
| `RoundProperties.GuessAwardsRoundScore` | script.js:119-133 | a guess adds exactly score(round, guess) to the total, advances the round by exactly 1, stops the countdown, disables the button, shows the result and keeps the marker |
| `RoundProperties.ClickWhileResultShownIgnored` | script.js:109-110 | a map click while the result is shown changes nothing |
| `RoundProperties.ClickPlacesGuess` | script.js:109-117 | otherwise the click becomes the guess and enables the button; round, score and countdown are unchanged |
| `RoundProperties.LastClickWins` | script.js:112-113 | two clicks in a row leave the same state as the second click alone |
| `RoundProperties.CountdownRunsDown` | script.js:79-88 | with no other input, k seconds with k below the time left only lower timeLeft by k |
| `RoundProperties.CountdownExpires` | script.js:83-99 | with no other input, the round is resolved by time-up exactly when the time left has passed |
| `RoundProperties.IdleClock` | script.js:96-97 | when no countdown is registered, any number of seconds changes nothing |
| `RoundProperties.RoundTimesOut` | script.js:63-106 | a loaded round left alone is still open after 59 seconds; at 60 seconds it is resolved with no points and the index advanced by 1; later seconds change nothing |
| `RoundProperties.StepAccounts` | script.js:96-133 | every event keeps the ledger: the total is the sum of the awards and the index their number. A resolving event adds exactly that round's award (0 without a guess) and advances by exactly 1. Any other event except restart leaves total and index alone |
| `RoundProperties.RunAccounts` | script.js:119-133 | the ledger is kept over any sequence of events |
| `RoundProperties.SessionAccounts` | script.js:25-53 | from page load and over any sequence of events, the total score equals the sum of the awards of the rounds resolved since the last start; the round index is their number and never exceeds 20 |
| `RoundProperties.TotalBounded` | script.js:126-128 | in a reachable state the total score is at most 5000 × 20 |
| `RoundProperties.ResolvedRoundIsFrozen` | script.js:109-121 | once a round is resolved, clicks, seconds and guess presses change nothing until next or restart |
| `RoundProperties.ResolvedAtMostOnce` | script.js:96-133 | without next or restart, the round index advances by at most 1; when it does, the round was open and is now resolved with the result shown |
| `RoundProperties.NextEndsGameAtTableEnd` | script.js:63-64 | the next button starts another round if and only if the index is below 20; at 20 it only shows game over |
| `RoundProperties.GameOverAfterAllRounds` | script.js:159-162 | the game ends exactly after 20 resolved rounds, and the final score shown is the sum of their awards |
| `Rounds.Step` | script.js:164-169 | every event delivered to a reachable state (a click, a second, a button press) leads to a reachable state: index at most 20, timeLeft within 0..60, countdown running exactly while no result is shown, button enabled exactly while a guess can be confirmed |
| `Rounds.Run` | script.js:164-169 | any sequence of events from a reachable state ends in a reachable state |
| `GameSession.Session.constructor` | script.js:25-32 | page load: the initial variables, then startGame; the session is valid with an empty ledger |
| `GameSession.Session.StartGame` | script.js:46-53 | sets index and score to 0 and loads round 0; from any state the session becomes valid with an empty ledger |
| `GameSession.Session.LoadRound` | script.js:63-77 | the new fields are `Rounds.LoadRound` of the old ones; the ledger is unchanged and the session stays valid |
| `GameSession.Session.ResetTimer` | script.js:79-82 | timeLeft becomes 60 and the countdown is running; nothing else changes |
| `GameSession.Session.Tick` | script.js:83-87 | the new fields are `Rounds.Tick` of the old ones; the ledger gains that round's award exactly when the last second passes |
| `GameSession.Session.HandleTimeUp` | script.js:96-107 | the new fields are `Rounds.TimeUp` of the old ones; the ledger gains the round's award (0 without a guess) and the session is valid |
| `GameSession.Session.HandleMapClick` | script.js:109-117 | the new fields are `Rounds.MapClick` of the old ones; ledger unchanged; the session stays valid |
| `GameSession.Session.HandleGuess` | script.js:119-133 | the new fields are `Rounds.HandleGuess` of the old ones; the ledger gains score(round, guess) and the session is valid |
| `GameSession.Session.ShowGameOver` | script.js:159-162 | shows game over with the total score; changes nothing else |
| `GameSession.Session.PressGuess` | script.js:166 | a press of the guess button is the Confirm event: handleGuess when the button is enabled, nothing otherwise |
| `GameSession.Session.PressNext` | script.js:167 | a press of the next button is the Next event, loadRound(currentRound) |
| `GameSession.GuessFirstRound` | script.js:109-133 | after page load, one map click and a press of the guess button, the total is exactly the score of that click in round 0 and the index is 1 |

## Left out

- Map construction, tile layers, markers, polylines and view fitting (script.js:36-44, 55-61, 144-153) are calls into the Leaflet library and rendering only.
- The distance (`distanceTo`) and the score `Math.round(5000 * Math.exp(-0.3 * dist))` (script.js:125-126) are foreign floating-point code. The model takes the score as a parameter `score: (nat, LatLng) -> Points`. It keeps only its range 0..5000: `distanceTo` is never negative, so the rounded value lies in that range. The 20 coordinates and location names are left out too. Only the table's length matters.
- Text, images, timer colour and the "Perfect!" title (script.js:70-74, 90-94, 135-142, 155-157) are display only. The result and game-over modals' visibility, the final score shown and the guess button's enabled state are modelled because the handlers test them or they guard a handler.
- `setInterval`/`clearInterval` timing and the event-listener wiring (script.js:83-87, 164-169) are modelled as explicit single-threaded events: one `Second` per interval firing, and one event per click or button press.
- The page's initial display state (result modal hidden, guess button disabled, game-over modal hidden) is taken as the starting point. The markup that sets it is not part of this model. `startGame` overwrites all of it except the game-over modal.
- The round index `i` passed to `loadRound` selects the photo and title. The model keeps it only for the end-of-table test.
