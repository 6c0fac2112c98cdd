# Card-game score keeper, modelled in Dafny

This project models the scoring core of a small card-game score keeper. It
has two parts:

- **The Flask server (`app.py`).** It keeps games in memory under a six-character
  join code. Each game stores its players with their initial scores, an admin
  mode (`none`, `fixed`, `rotating`, `manual`) and a log of rounds. A round is
  a score object `{player: delta}` plus its admin. The server:
  - computes every player's total;
  - works out who is admin of each round;
  - validates and appends rounds, and removes the last one on undo;
  - answers each accepted start, join, round and undo request, and each
    state query for a live game, with a snapshot of the game (rejections,
    reset and the page routes answer otherwise);
  - drops games that have been idle longer than six hours.
- **The browser script (`static/main.js`).** It:
  - keeps the last snapshot;
  - reads the setup form into players;
  - turns the score fields into a round, either zero-sum by hand (no admin)
    or as win/draw/lose bets against the admin;
  - redraws the round history by replaying the rounds from inferred initial
    scores;
  - ranks the players on a leaderboard.

Modules:

| file | module | models |
|---|---|---|
| `wrappers.dfy` | `Wrappers` | `Option` and `Result` |
| `ledger.dfy` | `Ledger` | score objects as insertion-ordered dictionaries, players, rounds, the snapshot record |
| `server_rules.dfy` | `ServerRules` | totals, the admin schedule, round admission and the snapshot, as functions |
| `server_store.dfy` | `ServerStore` | the `get_totals` loops, a game whose round log is appended to and popped, the table of games and its expiry |
| `display.dfy` | `Display` | `playerColor`, `trim`, splitting on white space, `initials` |
| `setup.dfy` | `Setup` | the player-count stepper and the default players of the setup form |
| `round_entry.dfy` | `RoundEntry` | `collectScores`, `submitRoundNoAdmin`, `submitRoundAdmin` |
| `history.dfy` | `History` | `renderHistoryTable` |
| `leaderboard.dfy` | `Leaderboard` | `renderSummaryTable`: the stable sort and the rows |
| `client_state.dfy` | `ClientState` | the page's globals, the admin select box, `applyState` |

Representation choices:

- **Score objects.** A JavaScript object or Python dict of scores is a
  sequence of `Entry(name, delta)` in insertion order.
  - Assigning to a key overwrites that key in place, or appends a new one
    (`Ledger.Put`).
  - Key order is not preserved end to end (Flask's `jsonify` sorts keys,
    and JavaScript objects list integer-like keys first). No behaviour of the
    model depends on it: every result reads dictionaries by key, and the
    history and leaderboard iterate over the player list.
- **Python operators.**
  - `//` rounds toward negative infinity (`ServerRules.FloorDiv`).
  - `%` by a positive length is Euclidean, as in Dafny.
  - A negative list index counts from the end (`ServerRules.PyIndex`).
- **`parseInt`.** Its result is an `Option<int>`, with `None` for `NaN`.
- **JavaScript `null`.** The admin choices (`manualAdminSelected`,
  `currentAdminSelected`) use the empty string for `null`. The page only tests
  them for truthiness, and both values are falsy.

## Model

| member | source | states |
|---|---|---|
| Ledger.Get | static/main.js:441 | a lookup finds a value exactly when the key is present |
| Ledger.GetFound | static/main.js:441 | the value a lookup finds is the one stored with that key |
| Ledger.Put | static/main.js:369 | assigning `scores[name]` leaves `name` mapped to the new value |
| Ledger.PutKeys | static/main.js:341-351 | assigning an existing key keeps the key order; assigning a new key appends it |
| Ledger.PutLeavesOthers | static/main.js:341-351 | assigning one key leaves every other key's value unchanged |
| Ledger.PutSum | static/main.js:341-351 | assigning a key changes the sum of the values by the new value minus the old one |
| Ledger.PutKeySet | static/main.js:369 | assignment adds its key to the set of keys |
| Ledger.PutKeepsUnique | static/main.js:369 | an object assigned key by key never holds a key twice |
| ServerRules.InitialTotals | app.py:56 | the dictionary of initial scores has exactly the player names as keys |
| ServerRules.InitialScoreOf | app.py:56 | with distinct names, each player's entry is that player's own initial score |
| ServerRules.TotalsIdentity | app.py:54-60 | with distinct names, every player's total is their initial score plus the sum of their deltas over all rounds |
| ServerRules.TotalsAfterRound | app.py:57-59 | appending a round adds its keys to the totals and moves every name's total by that round's delta (0 when absent) |
| ServerRules.FloorDiv | app.py:77 | Python floor division: the quotient q satisfies q*b <= a < q*b+b for b > 0 (and the mirror for b < 0) |
| ServerRules.PyIndex | app.py:73 | a Python index picks the element at that position, a negative one counting from the end (the element at the index modulo the length) |
| ServerRules.RotatingIndex | app.py:75-77 | the rotating position is always a valid player index |
| ServerRules.AdminForRound | app.py:63-82 | there is an admin exactly in `fixed` and `rotating` modes, and it is always one of the players: in `fixed` mode the player at the fixed index (negative counting from the end), in `rotating` mode the player at the rotating position |
| ServerRules.FixedAdminEveryRound | app.py:71-73 | in `fixed` mode every round has the same admin |
| ServerRules.RotationBlock | app.py:74-78 | rounds q*every to q*every+every-1 all have the player at (start+q) mod count as admin |
| ServerRules.RotationSchedule | app.py:74-78 | with every > 0 the admin stays for `every` rounds and then passes cyclically to the next player |
| ServerRules.FirstNonInteger | app.py:165-167 | a non-integer value is reported exactly when not every value is an integer |
| ServerRules.FirstNonIntegerAt | app.py:165-167 | the name reported is the one at the first non-integer position |
| ServerRules.NextRoundAdmin | app.py:172-176 | the admin stored with a round is the request's own in `manual` mode, none in `none` and unrecognised modes, and otherwise the scheduled player: `AdminForRound` for the round about to be played, which is the player at the fixed index in `fixed` mode and the rotation's player in `rotating` mode |
| ServerRules.AsScores | app.py:157 | a validated score object keeps every submitted name and value, in order |
| ServerRules.Admit | app.py:150-186 | a round is accepted iff the game has started, the object is non-empty and names only players, every value is an integer and, in `none` mode, the values sum to 0; the stored admin is the request's in `manual` mode and the scheduled one otherwise; each rejection names its cause in the source's order |
| ServerRules.AdmitKeepsWellFormed | app.py:150-186 | accepting a round keeps every stored round a non-empty dictionary over players, zero-sum in `none` mode, with the scheduled admin outside `manual` mode |
| ServerRules.UndoKeepsWellFormed | app.py:194-195 | removing the last round keeps the game well formed |
| ServerRules.WellFormedAdminDefined | app.py:63-82 | a game that has stored a round can always compute its admin |
| ServerRules.SnapshotAfterAdmit | app.py:211-233 | after an accepted round the round number is one higher, every total moves by the round's delta, and outside `manual` mode the round carries the admin the previous snapshot announced |
| ServerRules.Snapshot | app.py:211-233 | the snapshot carries the game's started flag, code, player names in order, mode, configuration and rounds; its round number is the number of rounds plus one; its totals hold every player and every name in a round, each with its total; its next admin is none in `manual` mode and the scheduled one otherwise |
| ServerStore.AddScoresKeys | app.py:58-59 | the inner totals loop adds the round's keys to the totals |
| ServerStore.AddScoresAt | app.py:58-59 | the inner totals loop moves each name by its delta in the round |
| ServerStore.AddRoundsIsTotals | app.py:54-60 | the two totals loops compute the totals |
| ServerStore.GetTotals | app.py:54-60 | `get_totals` returns each name's initial score (0 if none) plus every delta recorded for it, for every player and every name in some round |
| ServerStore.Game.Start | app.py:114-119 | a new game is started, has no rounds and keeps the given players and admin settings |
| ServerStore.Game.SubmitRound | app.py:150-186 | an accepted round is appended and the new snapshot returned; a rejected round leaves the log untouched and returns its error; the game stays well formed, the round number goes up by one, totals move by the round's deltas, and the admin is the one announced |
| ServerStore.Game.Undo | app.py:189-198 | with rounds, the last one is removed and the new snapshot returned; with none, nothing changes and the error is returned |
| ServerStore.SubmitThenUndo | app.py:184-195 | submitting a round and undoing it restores the log and every total |
| ServerStore.Registry.constructor | app.py:11 | the table of games starts empty |
| ServerStore.Registry.CleanupExpired | app.py:24-28 | afterwards no game idle longer than the time-to-live remains, every other game is kept unchanged, and no code is added |
| Display.PlayerColor | static/main.js:16 | the player at index `i` gets palette entry `i` modulo the palette's length (eight) |
| Display.ColourCycle | static/main.js:6-16 | colours repeat with period eight, and two indices share a colour exactly when they agree mod 8 |
| Display.Trim | static/main.js:18 | the trimmed string is the slice of the input between its leading and its trailing white space: only white space is removed, none is left at either end, and it is empty exactly when the input is all white space |
| Display.TrimIdempotent | static/main.js:18 | trimming twice is trimming once |
| Display.Word | static/main.js:18 | a word is the longest prefix without white space |
| Display.SplitTrimmed | static/main.js:18 | splitting a trimmed non-empty string on runs of white space gives only non-empty words, the first starting with the string's first character |
| Display.UpperChar | static/main.js:18 | a lower-case ASCII letter becomes the matching capital (code point minus 32); every other character is unchanged |
| Display.Upper | static/main.js:18 | upper-casing maps each character, changing exactly the lower-case ASCII letters |
| Display.Initials | static/main.js:17-19 | initials are one or two characters |
| Display.FirstTwoOf | static/main.js:18 | the first two first-characters are kept, upper-cased |
| Display.InitialsOfBlank | static/main.js:17-19 | a blank name gives `?` |
| Display.InitialsOfName | static/main.js:17-19 | any other name gives its first character upper-cased, then the upper-cased first character of its second word when it has one, and two characters exactly when it has two words |
| Setup.ClampCount | static/main.js:40 | the player count is held between 2 and 10 and left alone inside those bounds |
| Setup.ClampStep | static/main.js:39-40 | clamping is idempotent and never moves the count against the step |
| Setup.NumeralRoundTrip | static/main.js:83 | the decimal numeral of a row number reads back as that number |
| Setup.DefaultNamesDiffer | static/main.js:83 | different rows get different default names `P<i+1>` |
| Setup.SetupPlayers | static/main.js:80-86 | one player per row, in row order |
| Setup.SetupDefaults | static/main.js:82-85 | every player name is non-empty and trimmed; a blank name becomes `P<i+1>`; a score that does not parse becomes 0 and any other is kept |
| RoundEntry.FirstUnparsed | static/main.js:364-368 | an error is reported exactly when some field that is not skipped fails to parse, and it names one of the fields |
| RoundEntry.FirstUnparsedAt | static/main.js:361-368 | the field reported is the first one, not skipped, that does not parse |
| RoundEntry.CollectedUnique | static/main.js:358-372 | the collected object never holds a player twice |
| RoundEntry.CollectedContents | static/main.js:358-372 | the collected object is a dictionary; a skipped player is absent; with distinct players every other field's value is stored under its player |
| RoundEntry.CollectedKeys | static/main.js:358-372 | the keys of the collected object are exactly the players of the fields that are not skipped |
| RoundEntry.CollectedUnnamed | static/main.js:363 | the skipped player never appears in the collected object |
| RoundEntry.CollectScores | static/main.js:358-372 | the first field that does not parse aborts with its player's name; otherwise the result is every field not skipped, assigned in order |
| RoundEntry.NoAdminRound | static/main.js:281-289 | a round without admin is sent exactly when every field parses and the deltas sum to 0; otherwise the parse error or the non-zero total is reported |
| RoundEntry.WagerDelta | static/main.js:340-348 | an opponent loses the amount when the admin wins, gains it when the admin loses, and gets 0 on a draw |
| RoundEntry.RowError | static/main.js:318-338 | only a counted row that is not a draw can be in error: `NotInteger` exactly when its amount does not parse, `NegativeAmount` exactly when it is below 0; a counted row without error has a usable amount |
| RoundEntry.FirstRowError | static/main.js:325-338 | the round is aborted exactly when some counted, non-draw row has an amount that is not an integer or is negative |
| RoundEntry.FirstRowErrorAt | static/main.js:317-338 | the error reported is the one of the first row that has one |
| RoundEntry.AdminRound | static/main.js:306-351 | without an admin nothing is sent; otherwise the first bad row aborts the round, and an accepted round holds each counted row's delta and the admin's delta, the opposite of their sum |
| RoundEntry.DealsBalance | static/main.js:317-349 | the deals form a dictionary over counted players other than the admin, and with distinct players they sum to minus the admin's gain |
| RoundEntry.AdminRoundZeroSum | static/main.js:340-351 | with distinct players a round with admin sums to 0, the admin's delta is minus the others' sum, and each counted row carries its own delta |
| RoundEntry.DealOf | static/main.js:340-348 | with distinct players each counted row's delta is the one stored for it |
| RoundEntry.DrawKeepsError | static/main.js:326-338 | replacing a draw's amount leaves the round's first error unchanged |
| RoundEntry.DrawKeepsDeals | static/main.js:326-338 | replacing a draw's amount leaves every player's delta unchanged |
| RoundEntry.DrawKeepsGain | static/main.js:326-338 | replacing a draw's amount leaves the admin's gain unchanged |
| RoundEntry.DrawIgnoresAmount | static/main.js:326-338 | a draw's amount field plays no part: the same errors, deltas and admin gain whatever it holds |
| History.Cells | static/main.js:440-453 | one cell per player: the delta stored under that player's key in the round, or a dash exactly when the round has no such key |
| History.CellRows | static/main.js:436-456 | one row of cells per round, in order |
| History.InferredAt | static/main.js:429-432 | the inferred initial scores have one entry per player: the total (0 if absent) minus the player's deltas |
| History.ReplayAt | static/main.js:434-456 | with distinct players, replaying rounds moves each player's running total by the sum of their deltas |
| History.ReplayOneRound | static/main.js:440-454 | one round's inner loop produces each player's cell and moves each running total by the delta |
| History.ReplayHistory | static/main.js:391-456 | no table exactly when there are no rounds; otherwise the cells of every round, the inferred initial scores, and the replayed running totals |
| History.HistoryRoundTrip | static/main.js:429-442 | with distinct players, replaying all rounds from the inferred initial scores ends at exactly the totals received |
| History.InferredInitialIsInitial | static/main.js:429-432 | when the totals are the server's, every inferred initial score is the player's real initial score |
| Leaderboard.SortPermutes | static/main.js:472 | the sort's result is a rearrangement of its input |
| Leaderboard.SortIsDescending | static/main.js:472 | the sort's result is highest total first |
| Leaderboard.SortIsStable | static/main.js:472 | the sort keeps the players' original order among equal totals |
| Leaderboard.RankedOrder | static/main.js:472 | the ranking is a rearrangement of the players, highest total first, with ties in player order |
| Leaderboard.TierOf | static/main.js:479 | places 1, 2 and 3 get their own badge, every later place the common one |
| Leaderboard.SignOf | static/main.js:478 | the score class is positive, negative or zero exactly as the total is |
| Leaderboard.IndexOf | static/main.js:475 | `indexOf` finds the first position holding the name |
| Leaderboard.Summary | static/main.js:474-491 | one row per player |
| Leaderboard.SummaryRows | static/main.js:471-491 | row k shows the player ranked k, place k+1, the rank badge of the first three places, the player's total (0 if absent) with its sign, and the colour of the name's first position among the players |
| Leaderboard.SummaryDescending | static/main.js:472 | down the table the totals never increase |
| Leaderboard.SummaryLeader | static/main.js:472 | the first row holds the highest total of any player |
| ClientState.Assigned | static/main.js:196-207 | a select box set to a value shows it when it is one of its options and nothing otherwise |
| ClientState.AdminBadge | static/main.js:174-211 | the select box keeps showing one of its options; `none` only clears the current admin; otherwise the box lists the players and the current admin follows it. In `manual` mode the remembered admin is the box's value; that value is the earlier choice (the remembered admin, else the old box value) while it is still a player, and the first player otherwise. In the other modes the box shows the server's next admin, or the first player when the server names none. With no players the box is empty. Outside `manual` mode the remembered admin is left alone |
| ClientState.ManualAdminSurvives | static/main.js:188-201 | in `manual` mode an admin chosen before a new snapshot stays chosen after it while still a player |
| ClientState.BadgeFollowsServer | static/main.js:202-208 | outside `manual` mode a next admin named by the server becomes the current admin |
| ClientState.Client.constructor | static/main.js:22-25 | a freshly loaded page has no state, four setup rows and no admin chosen |
| ClientState.Client.ChangeCount | static/main.js:39-40 | the count moves by the step, held between 2 and 10, in the step's direction; nothing else changes |
| ClientState.Client.CurrentAdmin | static/main.js:213-219 | no admin exactly in `none` mode; otherwise the admin chosen last, failing that the select box's value |
| ClientState.Client.UpdateAdminBadge | static/main.js:174-211 | the new admin choices and select box are `AdminBadge` of the snapshot and the old ones (so the box falls back to the first player as that function states); the current admin is then a player, and equals the announced admin when there is one |
| ClientState.Client.ChooseAdmin | static/main.js:221-225 | the picked option becomes the current admin and, in `manual` mode only, the remembered one |
| ClientState.Client.ApplyState | static/main.js:146-156 | the snapshot is kept; the admin choices and select box become `AdminBadge` of the snapshot and the old ones (so a manual admin survives while still a player); the history table is drawn from it, and the leaderboard exactly when it is open |

## Left out

- Flask routing, sessions, cookies and HTTP status codes. `_get_game_from_session`, `join_game`, `reset_game` and `_touch_game` are not modelled; the game a request acts on is given as a `ServerStore.Game` object.
- `_generate_code` and its randomness. The join code is a parameter.
- The clock. `time.time()` becomes the `now` parameter of `ServerStore.Registry.CleanupExpired`, and last-access times are given values.
- The DOM, HTML strings, CSS classes and styles, error banners and the `fetch` calls. The user-visible messages (in Vietnamese) become error constructors.
- `refreshScoringInputs`, `onOutcomeChange`, `syncAdminSelects`, `renderPlayerInputs` and `startGame`'s reading of the admin form. These only build or toggle HTML, or re-read values that are parameters here.
- The `runningTotals` loop in `renderHistoryTable` (static/main.js:419-423). It computes values that are never used.
- The replayed totals. The page computes the inferred initial scores and the running totals (`initials_map`, `runningMap`, static/main.js:426-442) but displays only the round cells. `History.HistoryRoundTrip` and `History.InferredAt` state properties of these computed values, and nothing of them reaches the screen.
- `parseInt` details: leading white space, trailing junk, hex and the like. Each field is already its parsed `Option<int>`.
- Python's `bool` as an `int`. `isinstance(True, int)` holds, so JSON `true` passes the integer check; the model has no booleans among the values.
- ServerRules.AdminForRound: requires `AdminDefined`. The source raises (an HTTP 500) when a fixed index is out of range or a rotation has no players or `every == 0`; the model states those inputs as a precondition instead of modelling the crash.
- ServerStore.Game.SubmitRound: requires the submitted keys to be distinct, which JSON decoding guarantees for a Python dict.
- ServerRules.TotalsIdentity: requires distinct player names, because with duplicate names the later player's initial score overwrites the earlier one's.
- ServerRules.InitialScoreOf: requires distinct player names, for the same reason.
- History.HistoryRoundTrip: requires distinct player names, because a repeated name would be replayed twice.
- History.InferredInitialIsInitial: requires distinct player names, for the same reason.
- RoundEntry.AdminRoundZeroSum: requires distinct row players, because a repeated player keeps only the last assigned delta while the admin's delta counts every row.
- RoundEntry.CollectedContents: states the stored value of a field only with distinct players, because a repeated player keeps the last value.
- Display.UpperChar and Display.Upper: map only ASCII letters. The Unicode case mapping of `toUpperCase`, and UTF-16 code units as opposed to characters, are not modelled.
- Display.InitialsOfBlank: states only that a blank name gives `?`. The converse does not hold: the name `?` also gives `?` (covered by `Display.InitialsOfName`).
- Leaderboard.Summary: each row holds the colour index and the name rather than the colour and initials. The avatar is `Display.PlayerColor(colourIndex)` and `Display.Initials(name)`.
- Leaderboard.RankedOrder: `Array.prototype.sort` is modelled as a stable insertion sort. Sorts are stable from ECMAScript 2019 on, and stability fixes the result.
- Object keys that clash with `Object.prototype` properties are not modelled.
- RoundEntry.NoAdminRound: adds unbounded integers, while the page adds JavaScript numbers (IEEE doubles), exact only up to 2^53. With larger values the page can round: 9007199254740992 + 1 + 1 - 9007199254740994 sums to -2 in the page, so `submitRoundNoAdmin` refuses that round, while the model accepts it. The server's Python integers are unbounded and match the model.
- RoundEntry.AdminRound: computes the admin's delta over unbounded integers; the page's `adminDelta` is a double and can round above 2^53.
- RoundEntry.CollectScores: keeps each parsed value exactly; the page holds it as a double, exact only up to 2^53.
- History.ReplayHistory: sums deltas and running totals over unbounded integers; the page's sums are doubles and can round above 2^53.
- Leaderboard.RankedOrder, Leaderboard.SummaryRows, Leaderboard.SummaryLeader, History.Cells and History.HistoryRoundTrip: assume the page receives every total and delta exactly. `JSON.parse` turns them into doubles, which round integers above 2^53. For example, totals {A: 9007199254740993, B: 9007199254740992} with players [B, A] both arrive as 9007199254740992. The comparator (static/main.js:472) then returns 0 and the stable sort keeps [B, A], while the model ranks A first.
- Ledger.PutKeys: in a JavaScript object an integer-like key such as `"7"` is listed before the other keys, in numeric order, instead of being appended. Key order plays no part in any other result of the model.
