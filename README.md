# Game scoring core of the web-game project

This project models the game-scoring part of a Laravel + React game site.
The Dafny model covers four parts.

- **The server's game endpoints** (`GameController`):
  - `index` lists the active games.
  - `store` and `update` validate a catalogue request and then write the `games` table.
  - `storeGameSession` logs a session row.
  - `joinGame` and `playGame` keep the points ledger. The ledger has one `game_user` pivot entry per (user, game) pair, and each user has an account-wide `points` total.
- **The two playable games**:
  - tic-tac-toe: the 8-line winner check, the computer's random reply in place, the click handler and reset;
  - number guess: the random target, the scoring bands and the play report.
- **The client store**: the reducers of the `games`, `auth` and `categories` slices, and `fetchUser` as the sequences of reducers it dispatches: with no stored token, after a failed request and after a successful one.
- **The game page**: the choice of what `renderGame` shows.

A cross-component module (`Session`) ties the reports the games post to what the ledger does with them.

Layout, one module per file:

| file | module | models |
|---|---|---|
| common.dfy | Common | `Option`, request fields (`Field`: absent / null / given), the play report, `Math.floor(r * n)` for a draw `r` |
| catalog.dfy | Catalog | the `games` row, the active filter, the validation rules of `store` / `update`, the row they write |
| ledger.dfy | Ledger | the ledger as a value, `Join` and `Play` as functions, and lemmas about single calls and series of reports |
| game_controller.dfy | GameController | the database as a `Server` object whose methods are proved equal to the ledger functions |
| tic_tac_toe.dfy | TicTacToe | winner check, empty squares, computer move on an `array`, the click as a function and as the `Engine` object's method |
| guess_game.dfy | GuessGame | target draw, scoring, the submit handler as a `Component` method |
| games_slice.dfy, auth_slice.dfy, category_slice.dfy | GamesSlice, AuthSlice, CategorySlice | one class per slice, one method per reducer |
| game_show.dfy | GameShow | `renderGame` |
| session.dfy | Session | join → starting score, report → entry and total |

Randomness (`Math.random()`) is a parameter `r` with `0 <= r < 1`. A timestamp (`now()`) is an opaque number. The stored path of an uploaded image is a parameter. Whether a report request reached the server is a boolean parameter.

A full board with no winner after the player's move is not handled by the source. `computerMove` returns `null` and `checkWinner(null)` throws. The model makes this the explicit outcome `Crashed`, which leaves the state as it was.

## Model

| member | source | states |
|---|---|---|
| Common.FloorTimes | test-project-react/src/components/Games/GuessGame.jsx:15-17 | `Math.floor(r * n)` for a draw in [0, 1) lies in [0, n) for positive n and in [n, 0] otherwise |
| Common.Filter | test-project/app/Http/Controllers/GameController.php:15 | the filter keeps exactly the elements that satisfy the test, and never adds one; it is the `where` behind `Active` and the `.filter` behind `WithoutId` |
| Common.FilterAppend | test-project-react/store/slices/gamesSlice.js:64 | filtering a concatenation filters each part, so the kept elements stay in order |
| Common.RandomBelow | test-project-react/src/components/Games/TickTackToe.jsx:41-42 | `Math.floor(r * n)` for a draw in [0, 1) is a valid index below `n` |
| Catalog.Active | test-project/app/Http/Controllers/GameController.php:15 | a game is listed iff it is in the table and its `is_active` is true |
| Catalog.ActiveKeepsOrder | test-project/app/Http/Controllers/GameController.php:15 | the listing keeps table order: listing of a concatenation is the concatenation of listings |
| Catalog.Find | test-project/app/Http/Controllers/GameController.php:48 | `Game::find`: a found position holds the id; not found means no game carries it |
| Catalog.StoreValid | test-project/app/Http/Controllers/GameController.php:22-32 | what create accepts has a name and an existing category, and update accepts it too |
| Catalog.UpdateValid | test-project/app/Http/Controllers/GameController.php:54-64 | an accepted update sends neither name nor category as null, and any image is a valid one |
| Catalog.NewGame | test-project/app/Http/Controllers/GameController.php:34-40 | the created row carries the given id, name and category, the sent description, `is_active` and rules (null when not sent), and the stored path exactly when an image was uploaded |
| Catalog.Updated | test-project/app/Http/Controllers/GameController.php:66-72 | update never changes id or rules; a sent name, category, description or `is_active` is written (a null description or `is_active` clears it), an upload writes the stored path, and every field not sent keeps its value |
| Catalog.EmptyUpdateIsIdentity | test-project/app/Http/Controllers/GameController.php:66-72 | an update that sends nothing leaves the game unchanged |
| Catalog.UpdateIgnoresRules | test-project/app/Http/Controllers/GameController.php:66 | `rules` is not in the whitelist: requests differing only in rules give the same game |
| Ledger.Join | test-project/app/Http/Controllers/GameController.php:111-133 | join never touches a total; it refuses exactly the anonymous caller; afterwards an authenticated user has the entry and no other entry was added |
| Ledger.Play | test-project/app/Http/Controllers/GameController.php:136-160 | play never adds users; a refused request writes nothing; any other request leaves the entry written with the time |
| Ledger.AsInteger | test-project/app/Http/Controllers/GameController.php:141 | a value passing the `integer` rule stands for its integer, and JSON `true` for 1 |
| Ledger.Operand | test-project/app/Http/Controllers/GameController.php:155 | the operand of `increment` is the raw `user_points` when sent, otherwise the raw `points` |
| Ledger.Delta | test-project/app/Http/Controllers/GameController.php:155 | `user_points ?? points`: when `increment` accepts its operand, the increment is `user_points` when sent, otherwise `points` |
| Ledger.ToRequest | test-project-react/src/components/Games/TickTackToe.jsx:78-83 | a client report becomes a request that passes validation, cannot fail the increment, carries the report's points and adds `user_points` or else `points` |
| Ledger.JoinUnauthenticated | test-project/app/Http/Controllers/GameController.php:113-116 | with no user, join answers 401 and the ledger is unchanged |
| Ledger.JoinOutcomes | test-project/app/Http/Controllers/GameController.php:118-132 | an existing entry is returned with its points and nothing is written; a first join adds exactly one entry with 0 points and changes no other entry and no total |
| Ledger.JoinIdempotent | test-project/app/Http/Controllers/GameController.php:118-125 | joining twice equals joining once; the second join reports the stored points |
| Ledger.PlayRejectsInvalid | test-project/app/Http/Controllers/GameController.php:140-146 | play answers 422 iff `points` is missing or fails the `integer` rule (which lets JSON `true` through as 1), and then the ledger is unchanged |
| Ledger.PlayOverwritesEntryAndAddsDelta | test-project/app/Http/Controllers/GameController.php:148-155 | a valid play sets the entry to the integer `points` stands for, whether or not the entry existed, and changes no other entry; it fails with a server error iff the operand of `increment` (`user_points ?? points`) is not numeric, and then the total is unchanged although the entry was written; otherwise it adds that operand to the user's total; no other total changes |
| Ledger.BooleanPointsFailAfterWrite | test-project/app/Http/Controllers/GameController.php:140-155 | `points: true` with no `user_points` passes validation, writes the entry with 1 point and the time, then fails in `increment` with the total unchanged |
| Ledger.PlayAll | test-project/app/Http/Controllers/GameController.php:148-155 | a series of plays keeps the set of users |
| Ledger.TotalDeltaAppend | test-project/app/Http/Controllers/GameController.php:155 | the summed increments of two series concatenated add up |
| Ledger.PlayAllAddsTotalDelta | test-project/app/Http/Controllers/GameController.php:155 | after any series of reports the user's total grew by exactly the sum of the saved reports' increments; other users' totals are unchanged |
| Ledger.LastValidFor | test-project/app/Http/Controllers/GameController.php:140-153 | finds the last report for a game that passes validation, and that no later one does |
| Ledger.PlayAllLastWriteWins | test-project/app/Http/Controllers/GameController.php:148-153 | after a series, a game's entry holds the `points` of the last valid report for it, or is as before if there was none |
| Ledger.TotalDeltaOfPair | test-project/app/Http/Controllers/GameController.php:155 | the increments of two reports add up in either order |
| Ledger.SameDeltaSameTotals | test-project/app/Http/Controllers/GameController.php:155 | two series with the same summed increment leave the same totals |
| Ledger.PlaysCommuteOnTotal | test-project/app/Http/Controllers/GameController.php:155 | two plays in either order leave the same totals |
| Ledger.TwoReportsAddUp | test-project/app/Http/Controllers/GameController.php:155 | increments 10 (no `user_points`) and 15 (`user_points` 15, `points` 40) raise the total by 25 in either order |
| GameController.StoredMetadata | test-project/app/Http/Controllers/GameController.php:104 | the stored text is the sent JSON, `[]` when the key is missing and `null` when it was sent as null |
| GameController.SessionValid | test-project/app/Http/Controllers/GameController.php:88-97 | an accepted session names a game some row carries, a known user and a boolean `is_winner` |
| GameController.Server.Index | test-project/app/Http/Controllers/GameController.php:13-17 | the listing is exactly the active games |
| GameController.Server.Store | test-project/app/Http/Controllers/GameController.php:20-43 | invalid input → 422 and no write; valid → the new row with the next id is appended, ids stay distinct, the ledger and sessions are untouched |
| GameController.Server.Update | test-project/app/Http/Controllers/GameController.php:46-75 | unknown id → 404; invalid → 422; otherwise only that game is replaced by its update, its rules kept; nothing else in the database changes |
| GameController.Server.StoreGameSession | test-project/app/Http/Controllers/GameController.php:86-108 | invalid (unknown game or user, missing or null `is_winner`) → 422; valid → one session row appended with the values the controller passes: ids, `is_winner`, the time and the encoded metadata (`[]` when absent) |
| GameController.Server.JoinGame | test-project/app/Http/Controllers/GameController.php:111-133 | the new ledger and the response are those of `Ledger.Join`; games and sessions are untouched |
| GameController.Server.PlayGame | test-project/app/Http/Controllers/GameController.php:136-160 | the new ledger and the response are those of `Ledger.Play`, including the server error that keeps the entry write; games and sessions are untouched |
| TicTacToe.Line | test-project-react/src/components/Games/TickTackToe.jsx:14-23 | each of the 8 lines is three distinct squares of the board |
| TicTacToe.WinnerFrom | test-project-react/src/components/Games/TickTackToe.jsx:25-31 | the scan from line k answers a mark that owns a line at or after k, and null exactly when none of them is won |
| TicTacToe.Winner | test-project-react/src/components/Games/TickTackToe.jsx:13-31 | the winner owns some line, and there is none exactly when no line is won |
| TicTacToe.WinnerFromIsFirstWonLine | test-project-react/src/components/Games/TickTackToe.jsx:25-31 | the scan from line k answers m iff the first won line at or after k is owned by m; it answers null iff no such line is won |
| TicTacToe.WinnerIsFirstWonLine | test-project-react/src/components/Games/TickTackToe.jsx:13-31 | the winner is m iff some line has three m's and no earlier line is won; null iff no line is won |
| TicTacToe.PlacingMarkCanOnlyWinForIt | test-project-react/src/components/Games/TickTackToe.jsx:55-59 | on an undecided board, placing a mark can only make that mark the winner |
| TicTacToe.CheckWinner | test-project-react/src/components/Games/TickTackToe.jsx:13-31 | the loop returns exactly the winner the line specification gives |
| TicTacToe.EmptyFrom | test-project-react/src/components/Games/TickTackToe.jsx:35-37 | the collected indices are exactly the empty squares, in increasing order |
| TicTacToe.EmptyIndices | test-project-react/src/components/Games/TickTackToe.jsx:35-37 | exactly the empty squares, in increasing order |
| TicTacToe.ChosenCell | test-project-react/src/components/Games/TickTackToe.jsx:41-42 | the computer's pick is an empty square of the board |
| TicTacToe.ComputerMove | test-project-react/src/components/Games/TickTackToe.jsx:34-45 | it fails iff no square is empty; otherwise exactly the chosen empty square becomes O and no other square changes |
| TicTacToe.CopyBoard | test-project-react/src/components/Games/TickTackToe.jsx:52 | `slice()` gives a fresh array with the same squares |
| TicTacToe.Click | test-project-react/src/components/Games/TickTackToe.jsx:49-95 | the board keeps nine squares; an ignored or crashed click changes nothing; a player win adds `points_for_exact` and reports (new score, increment); every other outcome keeps the score; a computer win shows the loss message |
| TicTacToe.ClickKeepsConsistent | test-project-react/src/components/Games/TickTackToe.jsx:49-95 | after a click the winner field matches the board; a player win means X won, a computer win means O won, a continued game has no winner |
| TicTacToe.ClickIgnoredIff | test-project-react/src/components/Games/TickTackToe.jsx:50 | a click is ignored iff the square is taken or a winner is set, and then nothing changes |
| TicTacToe.ClickScoresOnlyPlayerWins | test-project-react/src/components/Games/TickTackToe.jsx:66-89 | the player wins iff the free square completes a line for X; then the score grows by `points_for_exact` and the report carries the new score as `points` and the increment as `user_points`; every other outcome keeps the score |
| TicTacToe.ClickComputerReply | test-project-react/src/components/Games/TickTackToe.jsx:57-65 | when X does not win, the handler crashes iff the board is full, leaving the state unchanged; otherwise exactly one square that was empty becomes O |
| TicTacToe.ClickWhenXWins | test-project-react/src/components/Games/TickTackToe.jsx:66-74 | when X completes a line the click shows X's board, the winner, the score plus `points_for_exact` and the win message, and reports the new score and the increment |
| TicTacToe.Engine.constructor | test-project-react/src/components/Games/TickTackToe.jsx:5-11 | an empty board, no winner, no message, and a score of the joined points or 0 |
| TicTacToe.Engine.HandleClick | test-project-react/src/components/Games/TickTackToe.jsx:49-95 | the new state and the outcome are those of the `Click` specification, and the state stays consistent |
| TicTacToe.Engine.PlaceX | test-project-react/src/components/Games/TickTackToe.jsx:52-94 | past the guard, the state and outcome are those of the `Click` specification |
| TicTacToe.Engine.Reply | test-project-react/src/components/Games/TickTackToe.jsx:57-65 | once X has not won, the computer's in-place reply and the settled state are those of the `Click` specification |
| TicTacToe.Engine.ResetGame | test-project-react/src/components/Games/TickTackToe.jsx:97-102 | nine empty squares, no winner, an empty message; the score is kept |
| TicTacToe.TopRowWins | test-project-react/src/components/Games/TickTackToe.jsx:15 | X across the top row wins |
| GuessGame.DrawTarget | test-project-react/src/components/Games/GuessGame.jsx:15-17 | for every draw in [0, 1) the target lies in [min, max] when min ≤ max, and in (max, min] when the rules are reversed |
| GuessGame.DrawReachesEveryTarget | test-project-react/src/components/Games/GuessGame.jsx:15-17 | every number in [min, max] is the target for some draw |
| GuessGame.GuessPoints | test-project-react/src/components/Games/GuessGame.jsx:19-24 | the points are one of the two rule amounts or 0; an exact guess earns `points_for_exact`; a guess farther than 10 earns nothing |
| GuessGame.GuessPointsBands | test-project-react/src/components/Games/GuessGame.jsx:19-24 | exact → `points_for_exact`, even though it is also close; distance 1 to 10 inclusive → `points_for_close`; farther → 0 |
| GuessGame.GuessPointsNonNegative | test-project-react/src/components/Games/GuessGame.jsx:19-24 | with non-negative rule points the score is non-negative, and positive iff the band hit pays |
| GuessGame.SeededExamples | test-project/database/seeders/GameSeeder.php:16-19 | with rules 1..100, 10, 5: guess 50 scores 10 for target 50, 5 for 45 and 60, 0 for 61 and 70 |
| GuessGame.NatToString | test-project-react/src/components/Games/GuessGame.jsx:43 | the decimal rendering of a number in the message is never empty |
| GuessGame.ResultMessage | test-project-react/src/components/Games/GuessGame.jsx:42-44 | the message opens with "Your guess: " and ends with the points and a full stop |
| GuessGame.Component.constructor | test-project-react/src/components/Games/GuessGame.jsx:5-8 | no message, 0 points shown, no error |
| GuessGame.Component.HandleSubmit | test-project-react/src/components/Games/GuessGame.jsx:12-49 | for any rules the target is the draw of `DrawTarget`, in range when min ≤ max; the points shown are the scoring bands' points even if delivery fails; the report carries only `points`; the message changes only after delivery and the error only on failure |
| GamesSlice.WithoutId | test-project-react/store/slices/gamesSlice.js:64 | a game survives iff it was there and its id differs from the payload |
| GamesSlice.WithoutIdKeepsOrder | test-project-react/store/slices/gamesSlice.js:64 | the survivors keep their order |
| GamesSlice.WithoutIdShrinksExactlyWhenPresent | test-project-react/store/slices/gamesSlice.js:64 | the list gets shorter iff some game carries the id |
| GamesSlice.GamesState.constructor | test-project-react/store/slices/gamesSlice.js:8-13 | no games, no game, not loading, no error |
| GamesSlice.GamesState.FetchGamesStart | test-project-react/store/slices/gamesSlice.js:15-18 | loading, no error, games and game unchanged |
| GamesSlice.GamesState.FetchGamesSuccess | test-project-react/store/slices/gamesSlice.js:19-22 | the list is the payload, not loading, error and game unchanged |
| GamesSlice.GamesState.FetchGamesFailure | test-project-react/store/slices/gamesSlice.js:23-26 | not loading, the error is the payload, games and game unchanged |
| GamesSlice.GamesState.FetchGameByIdStart | test-project-react/store/slices/gamesSlice.js:27-30 | loading, no error, games and game unchanged |
| GamesSlice.GamesState.FetchGameByIdSuccess | test-project-react/store/slices/gamesSlice.js:31-34 | the game is the payload, not loading, list and error unchanged |
| GamesSlice.GamesState.FetchGameByIdFailure | test-project-react/store/slices/gamesSlice.js:35-38 | not loading, the error is the payload, games and game unchanged |
| GamesSlice.GamesState.UpdateGameStart | test-project-react/store/slices/gamesSlice.js:39-42 | loading, no error, games and game unchanged |
| GamesSlice.GamesState.UpdateGameSuccess | test-project-react/store/slices/gamesSlice.js:43-46 | the game is the payload, not loading, list and error unchanged |
| GamesSlice.GamesState.UpdateGameFailure | test-project-react/store/slices/gamesSlice.js:47-50 | not loading, the error is the payload, games and game unchanged |
| GamesSlice.GamesState.CreateGameStart | test-project-react/store/slices/gamesSlice.js:51-54 | loading, no error, games and game unchanged |
| GamesSlice.GamesState.CreateGameSuccess | test-project-react/store/slices/gamesSlice.js:55-58 | the payload is appended at the end, earlier games keep their places, the length grows by one |
| GamesSlice.GamesState.CreateGameFailure | test-project-react/store/slices/gamesSlice.js:59-62 | not loading, the error is the payload, games and game unchanged |
| GamesSlice.GamesState.DeleteGameSuccess | test-project-react/store/slices/gamesSlice.js:63-65 | the list loses exactly the games with that id, keeping order; loading, error and game unchanged |
| GamesSlice.GamesState.DeleteGameFailure | test-project-react/store/slices/gamesSlice.js:66-69 | not loading, the error is the payload, games and game unchanged |
| AuthSlice.AuthState.constructor | test-project-react/store/slices/authSlice.js:4-10 | authenticated iff a non-empty token is stored, holding that token or null |
| AuthSlice.AuthState.AuthStart | test-project-react/store/slices/authSlice.js:16-19 | loading, no error; user, token and authentication kept |
| AuthSlice.AuthState.AuthSuccess | test-project-react/store/slices/authSlice.js:20-25 | token and user from the payload, authenticated, not loading; the error is not cleared |
| AuthSlice.AuthState.AuthFailure | test-project-react/store/slices/authSlice.js:26-29 | not loading, the error is the payload; user, token and authentication kept |
| AuthSlice.AuthState.Logout | test-project-react/store/slices/authSlice.js:30-37 | user, token, error cleared, not authenticated, not loading, stored token removed |
| AuthSlice.AuthState.SetUser | test-project-react/store/slices/authSlice.js:38-41 | the user is the payload and authenticated; token kept |
| AuthSlice.AuthState.FetchUser | test-project-react/store/slices/authSlice.js:94-100 | a request is sent iff a non-empty token is stored; with none the state ends logged out |
| AuthSlice.AuthState.FetchUserFailed | test-project-react/store/slices/authSlice.js:110-113 | the failure's error is wiped by the logout that follows: the state ends logged out |
| AuthSlice.AuthState.FetchUserSucceeded | test-project-react/store/slices/authSlice.js:109 | the fetched user is set and authenticated; token kept |
| CategorySlice.CategoryState.constructor | test-project-react/store/slices/categorySlice.js:5-9 | no categories, not loading, no error |
| CategorySlice.CategoryState.FetchCategoryStart | test-project-react/store/slices/categorySlice.js:17-20 | loading, no error, list kept |
| CategorySlice.CategoryState.FetchCategorySuccess | test-project-react/store/slices/categorySlice.js:22-25 | the list is the payload, not loading, error kept |
| CategorySlice.CategoryState.FetchCategoryFailure | test-project-react/store/slices/categorySlice.js:27-30 | not loading, the error is the payload, list kept |
| GameShow.RenderGame | test-project-react/src/components/GameShow.jsx:20-33 | loading iff loading; not found iff not loading and no game; the guess view iff the name is exactly "Guess the Number", tic-tac-toe iff exactly "Tic Tac Toe", unknown otherwise; a game view gets the whole detail |
| GameShow.NameMatchIsExact | test-project-react/src/components/GameShow.jsx:25-31 | "tic tac toe" in lower case is an unknown game type |
| GameShow.RenderDependsOnlyOnName | test-project-react/src/components/GameShow.jsx:25 | two details with the same name get the same kind of view |
| Session.JoinSeedsScore | test-project-react/src/components/Games/TickTackToe.jsx:8-10 | after an authenticated join, the score the component starts from (`points` or 0) is the stored entry's points |
| Session.ClientReportsAreSaved | test-project-react/src/components/Games/TickTackToe.jsx:78-83 | for rules whose point amounts are integers, a report either game sends is saved in full and adds `user_points` or else `points` to the total |
| Session.TicTacToeWinKeepsEntryInStep | test-project-react/src/components/Games/TickTackToe.jsx:70-89 | after a saved win report the entry equals the score on screen, the total grew by `points_for_exact`, and total minus entry is unchanged |
| Session.GuessRoundOverwritesEntry | test-project-react/src/components/Games/GuessGame.jsx:30-34 | a saved guess report sets the entry to that round's points, not a running sum, and adds them to the total |
| Session.TwoExactGuesses | test-project-react/src/components/Games/GuessGame.jsx:19-34 | two exact guesses under the seeded rules leave the entry at 10 and raise the total by 20 |

## Left out

- HTTP and axios: every thunk's request (`fetchGames`, `fetchGameById`, `updateGame`, `createGame`, `deleteGame`, `login`, `register`, `fetchCategories`) is transport. Only the reducers it dispatches are modelled, plus `fetchUser`'s branches as sequences of reducers.
- `Math.random()` is the parameter `r`. Whether a report request succeeded is the parameter `delivered`.
- `localStorage` is the `storedToken` field of the auth state. The games' own token reads are not modelled.
- `now()` is an opaque number. File storage is a given stored path.
- Validation covers only what decides the outcomes:
  - `exists` is membership in the given set of categories, games or users;
  - an upload is its extension and size;
  - a `string` rule on a non-string value is not modelled, since every text field is a string here;
  - the type rules are not modelled: `boolean` on `is_active` and `is_winner`, `array` on `metadata`, and a non-numeric value given to an `exists` id. The model's types (`Field<bool>`, `Field<nat>`, metadata as JSON text) exclude the wrongly-typed values, so the 422 answers to them are lost;
  - the error bodies of 422 answers are not modelled.
- Mass assignment through `Game::$fillable` is not modelled. Only name, description and rules are fillable in the model file, so Eloquent would drop `category_id`, `is_active` and `image` on create and update. The model copies the fields the controller passes.
- GameController.Server.StoreGameSession: the row records `is_winner` and `metadata` as the controller passes them. `GameUser::$fillable` lists only user_id, game_id, points and played_at, so Eloquent drops both. What the database then stores depends on column defaults, which are not part of this model.
- Ledger.Play: a `user_points` that is numeric but not an integer, such as 2.5, is not modelled. It counts as an integer or as non-numeric; floating point is left out. Of the values PHP's `FILTER_VALIDATE_INT` accepts, integers, strings of digits and `true` are modelled; other coercions are not.
- The `rules` array cast and the client's `JSON.parse(game.game.rules)` are not modelled. A game's rules reach the components as a `Rules` value or as `pointsForExact`, whose point amounts are integers. Rules are free JSON that the server does not validate, so a point amount can be missing or not an integer. Tic-Tac-Toe then adds `undefined` and the score becomes NaN, and the guess game posts `{}`. The body then has a null or missing `points`, and the server answers 422. The model does not capture this, and `Session.ClientReportsAreSaved` holds only for integer amounts.
- `destroy` is not part of this model.
- `Game::with('category')` is not part of this model: the listing carries games without their category.
- Concurrency of ledger writes is left out. Nothing in the source locks, and the model is sequential.
- Integers are unbounded. PHP's 64-bit integers and the database column widths are not modelled.
- PlayGame: requires an authenticated user who has a total. The `auth:sanctum` middleware guarantees this, since `playGame` itself does not check.
- JoinGame, PlayGame: require the game to exist. Route-model binding answers 404 before the controller runs, and that 404 is not modelled.
- GuessGame.Component.HandleSubmit: the guess is an integer. JavaScript's coercion of the text field for `==` and `-` is not modelled.
- GamesSlice.GamesState.UpdateGameSuccess: the server answers an update with the bare game, not the game-and-points detail the page reads. The model types the payload as a detail, so it does not capture that mismatch.
- TicTacToe.Engine: `isXNext` is set to true and never flipped, as in the source. The rendering of the board and buttons is not modelled.
- GameShow: the page header and the error line are rendering only. The header reads `game.name` off the detail, which has no such field; this is not modelled.
- `console.log` and `console.error` calls are left out.
