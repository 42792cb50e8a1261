# By the Power of Memory — a Dafny model of the game's tile engine and score keeping

"By the Power of Memory" is a browser memory game. It shows one tile: a shape, a colour,
a number and a position on a small grid. It then shows the same tile again with some of
those four dimensions changed. The player says, dimension by dimension, whether it changed.
This project models the client-side logic behind that game and proves what it guarantees.

The modules follow the game's own script files.

- `Logic` (`static/logic.js`) covers the single-tile logic:
  - the level counter;
  - the level-scoped shape and colour pools;
  - the grid and its positions;
  - the random tile generator;
  - the mutator `mutateTile`, with its exclusion draw `pickOther`;
  - the structural diff `getChangedDimensions`.
- `TileBoard` (`static/tile.js`) is the multi-tile variant. It covers:
  - board generation;
  - `createModifiedTiles`;
  - the feedback classifier;
  - the partition-and-score function.
- `Scoring` (`static/score.js`) covers the per-dimension comparison of a guess, the
  "new round after four guesses" rule, and the second `calculateScore`.
- `GameState` (`static/state.js`) is the `state` record together with the browser's
  `localStorage`, which is modelled as a map from keys to stored values. It covers
  reset, increment, log and load.
- `Round` (`static/round.js`) splits `startRound` into two explicit steps:
  - the start step resets the score and generates the first tile;
  - the reveal step is the delayed callback, which mutates that tile.
- `Emoji` (`static/emoji.js`) and `Colors` (`static/color.js`) hold the symbol and colour
  tables that the pools filter against.
- `Random`, `JsText`, `Seqs` and `Wrappers` are support modules:
  - `Random` models `Math.random()` draws;
  - `JsText` models JavaScript's `parseInt` and number-to-text conversion;
  - `Seqs` holds the array operations `filter`, `slice` and `includes`;
  - `Wrappers` holds `Option` and `Result`.

How the model represents the program:

- **Randomness.** `Math.random()` is an oracle `rng: nat -> Unit`, where `Unit` is a real
  in [0, 1). Each operation reads its draws `rng(0)`, `rng(1)`, … in the order the code
  makes them. `Math.floor(r * n)` is `Random.Index`. Every contract therefore holds for
  every sequence of draws.
- **Shapes and colours** are enumerations. `Emoji.Name` and `Colors.Name` give the strings
  the code uses for them. `Colors.NameInjective` shows that distinct colours have distinct
  strings, so comparing the values compares what the code compares.
- **Position equality.** `score.js` compares positions with `===`, which tests array
  identity. The state record therefore carries a flag `sharedPosition`. The reveal step
  sets it exactly when `mutateTile` kept the previous tile's position array.
- **`currentTile`** is a `Slot`. It is `Null` before any round, `Blank` for the `{}` the
  start step creates, and `Filled` once a tile has been revealed.

Where the code and the game's own comments and help texts disagree, the model follows the code:

- The level-1 colour pool has 4 colours (`static/logic.js:160`), although the comment at
  `static/logic.js:145` says 5.
- The help text at `static/help.js:55` promises a net score with level-ups at 41 and 82.
  No code computes a net score or applies those thresholds.
- `logGuess` stores one `{time, result}` entry per guess (`static/state.js:47-53`). The
  history panel at `static/overlay.js:32-33` shows only per-game summaries with
  correct/wrong/net fields, which nothing in the code writes.
- `resetScore` clears the stored history but not the in-memory `gameHistory`. The next
  `logGuess` therefore writes the old entries back to storage
  (`GameState.ResetThenLogRestoresHistory`).

## Model

| member | source | states |
|---|---|---|
| Logic.NextLevel | static/logic.js:7-9 | the next level is one more than the current one, capped at 3 |
| Logic.LevelStaysInRange | static/logic.js:5-9 | after any run of `nextLevel`/`resetLevel` calls from the initial value, the level is in 1..3 |
| Logic.LevelStep | static/logic.js:7-9 | `nextLevel` never lowers the level and raises it by one below 3; `resetLevel` sets it to 1 |
| Logic.OrderedShapesKnown | static/logic.js:13-34 | the 19 ordered candidate shapes are pairwise distinct and all of them are in `SHAPES` |
| Logic.OrderedColorsKnown | static/logic.js:148-158 | the 9 ordered candidate colours are pairwise distinct and all of them are in `COLORS` |
| Logic.SymbolPool | static/logic.js:12-39 | the symbol pool has 8, 14 or 19 shapes for level ≤1, level 2 and level ≥3, with no repeats |
| Logic.ColorPool | static/logic.js:146-163 | the colour pool has 4, 7 or 9 colours for level ≤1, level 2 and level ≥3, with no repeats |
| Logic.SymbolPoolIsKnownPrefix | static/logic.js:34-38 | the symbol pool is a prefix of the ordered shape list, holds only `SHAPES` names, and is the whole list from level 3 on |
| Logic.ColorPoolIsKnownPrefix | static/logic.js:158-162 | the colour pool is a prefix of the ordered colour list, holds only `COLORS` values, and is the whole list from level 3 on |
| Logic.SymbolPoolMembership | static/logic.js:36-38 | a shape is in the level's pool exactly when its place in the ordered list is below the level's pool size |
| Logic.ColorPoolMembership | static/logic.js:160-162 | a colour is in the level's pool exactly when its place in the ordered list is below the level's pool size |
| Logic.LevelPool | static/logic.js:34-38 | filtering an ordered list by a catalogue that contains all of it and slicing by level gives a duplicate-free prefix of that list, holding only catalogue values |
| Logic.PoolsGrowByPrefix | static/logic.js:36-38 | for levels lo ≤ hi, the lo pools (shapes and colours) are prefixes of the hi pools |
| Logic.LevelPoolsNest | static/logic.js:160-162 | the level slice is monotone: a lower level's pool is a prefix of a higher level's |
| Logic.SymbolFilterIgnoresCatalogueOrder | static/logic.js:34 | the `SHAPES.includes` filter keeps all 19 ordered shapes even after `SHAPES` has been shuffled in place |
| Logic.GridSize | static/logic.js:45-49 | the grid side is 2 at level ≤1, 3 at level 2 and 4 at level ≥3 |
| Logic.GridPositions | static/logic.js:51-59 | `size²` distinct cells in row-major order, cell `r*size+c` is `[r, c]`, and every coordinate is in [0, size) |
| Logic.GridMembership | static/logic.js:51-59 | a cell is among the grid positions exactly when both coordinates are in [0, size) |
| Logic.ChangedDimensions | static/logic.js:139-143 | a dimension is listed exactly when the two tiles' values differ in it, and the list is empty exactly when the tiles are equal |
| Logic.ChangedDimensionsAscending | static/logic.js:140 | the changed dimensions appear in the order shape, color, number, position |
| Logic.ChangedDimensionsSymmetric | static/logic.js:139-143 | the diff of a against b equals the diff of b against a |
| Logic.NumbersDomain | static/logic.js:101 | `[...Array(10).keys()]` holds exactly the integers 0..9 |
| Logic.GenerateRandomTile | static/logic.js:61-75 | each of the generated tile's four values lies in its level domain |
| Logic.GeneratedFromPools | static/logic.js:61-75 | the shape is in the symbol pool, the colour in the colour pool, the number in [0, 10) and the position among the grid positions of the level |
| Logic.DrawShape | static/logic.js:70 | a draw from the symbol pool is one of its shapes |
| Logic.DrawColor | static/logic.js:71 | a draw from the colour pool is one of its colours |
| Logic.DrawPosition | static/logic.js:62-65 | a drawn position is a grid cell of the level's grid |
| Logic.PickOther | static/logic.js:134-137 | a pick exists exactly when the array holds a value other than `exclude`; it is then a member of the array and differs from `exclude` |
| Logic.Rewrite | static/logic.js:92-106 | one switch case replaces only field `d` of the candidate, with a value that differs from the original tile's and lies in the level domain |
| Logic.OtherShape | static/logic.js:95 | the replacement shape differs from the old one and lies in the level's symbol pool |
| Logic.OtherColor | static/logic.js:98 | the replacement colour differs from the old one and lies in the level's colour pool |
| Logic.OtherNumber | static/logic.js:101 | the replacement number differs from the old one and lies in 0..9 |
| Logic.OtherPosition | static/logic.js:104 | the replacement position differs from the old one and lies on the level's grid |
| Logic.RewriteAll | static/logic.js:91-107 | after the switch loop, every selected dimension differs from the original and is in its domain, and every other field is the candidate's |
| Logic.Selection | static/logic.js:85 | a dimension is selected exactly when its own draw is below 0.5; no dimension is selected twice |
| Logic.Changes | static/logic.js:85-89 | the selection is never empty: it is the filter's result when that is non-empty, otherwise a single drawn dimension |
| Logic.Attempt | static/logic.js:85-107 | one attempt rewrites a non-empty set of dimensions, each to a different in-domain value, and copies the rest |
| Logic.Forced | static/logic.js:114-131 | the fallback rewrites exactly one dimension, to a different in-domain value, and copies the rest |
| Logic.TryMutate | static/logic.js:84-131 | the retry loop with its fallback yields a tile with a non-empty set of rewritten dimensions, each changed and in domain, the rest copied |
| Logic.MutateTile | static/logic.js:77-132 | the mutated tile differs from the input in at least one dimension; rewritten values are in their level domains; other fields are unchanged |
| Logic.SettledAreChanged | static/logic.js:109 | when exactly the dimensions in `dims` were changed, the diff lists exactly `dims` |
| Logic.MutationDiff | static/logic.js:109-110 | the diff of the input and the mutated tile is exactly the set of dimensions the mutator rewrote |
| Logic.ForcedChangesOne | static/logic.js:114-131 | the fallback tile differs from the input in exactly one dimension |
| Logic.SingleChange | static/logic.js:139-143 | tiles that differ only in dimension `d` have the diff `[d]` |
| Logic.FirstAttemptSucceeds | static/logic.js:84-112 | the first pass of the loop always returns, so the mutation is the first attempt's |
| Random.Index | static/logic.js:64 | `Math.floor(r * n)` is a valid index when `n > 0`, and 0 otherwise |
| Emoji.ShapeToEmoji | static/emoji.js:24-48 | a known name maps to its own row's glyph; any other name maps to the fallback "■" |
| Emoji.ShapesAreDistinct | static/emoji.js:1-22 | `SHAPES` lists 19 pairwise-distinct names |
| Emoji.GlyphTableMatchesShapes | static/emoji.js:25-45 | the table has one row per `SHAPES` entry, in the same order, and both its keys and its glyphs are pairwise distinct |
| Emoji.ShapesHaveOwnGlyph | static/emoji.js:25-45 | every `SHAPES` name is found in the table and gets its own row's glyph |
| Emoji.ShapeToEmojiInjective | static/emoji.js:25-45 | two `SHAPES` names with the same glyph are the same name |
| Emoji.FallbackIsSquare | static/emoji.js:27-46 | the fallback glyph is the glyph of "square" |
| Emoji.LookupFindsRow | static/emoji.js:46 | in a table without repeated keys, looking up a row's key gives that row's glyph |
| Colors.ColorToClass | static/color.js:14-16 | the class name is the colour with the 6-character `color-` prefix, and stripping that prefix gives the colour back |
| Colors.ClassToColorInverse | static/color.js:15 | every class name that starts with `color-` is `colorToClass` of what follows the prefix |
| Colors.ColorToClassInjective | static/color.js:14-16 | different colours give different class names |
| Colors.NameInjective | static/color.js:1-12 | two colours have the same string exactly when they are the same colour |
| Colors.IncludesByName | static/logic.js:158 | `includes` on the colour strings finds a colour exactly when the colour is in the list, so filtering by value is filtering by string |
| Colors.ColorsHaveNineValues | static/color.js:1-12 | `COLORS` has 10 entries but only 9 distinct values, because "red" is listed twice |
| JsText.ParseInt | static/state.js:37-38 | `parseInt` with no radix: it gives a number only when the text holds a decimal digit (a hexadecimal number needs the `0x` prefix), and otherwise `NaN` |
| JsText.IntToText | static/state.js:26-30 | the text `setItem` stores for a number is non-empty and starts with a digit or a minus sign |
| JsText.ParseIntRoundTrip | static/state.js:26 | `parseInt` of the text of a stored integer gives that integer back |
| JsText.LeadingSpaceIgnored | static/state.js:37 | `parseInt` skips leading whitespace |
| JsText.ParseIntNaN | static/state.js:37-38 | text whose first character after the leading white space is neither a sign nor a decimal digit reads as `NaN` |
| GameState.StoredCounter | static/state.js:37-38 | a missing key or a stored list reads as 0, and stored text reads as its `parseInt` value, or 0 when that is `NaN` |
| GameState.StoredCounterReadsItem | static/state.js:37-38 | the counter is `parseInt(text) \|\| 0` of the text `getItem` returns: "null" for a missing key, the `JSON.stringify` text for a stored entry list, the text itself otherwise |
| GameState.AbsentAndListReadAsNaN | static/state.js:37-38 | `parseInt("null")` and `parseInt` of JSON list text are both `NaN`, so `\|\| 0` reads both as 0 |
| GameState.ReadCounter | static/score.js:17-18 | `parseInt(text) \|\| 0` is the parsed number, or 0 when the text reads as `NaN` |
| GameState.StoredNumber | static/state.js:26-30 | a counter stored by `setItem` reads back as the same number |
| GameState.ResetScore | static/state.js:11-20 | both counters become 0 in memory and in storage, and the stored history becomes []; the tiles and the in-memory history are untouched, and so are all other storage keys |
| GameState.ResetStore | static/state.js:15-17 | storage afterwards holds "0", "0" and [] under "correct", "wrong" and "history", with every other key unchanged |
| GameState.Mark | static/state.js:49 | the entry's result is ✅ exactly when the guess was correct |
| GameState.LogGuess | static/state.js:47-53 | exactly one entry is appended, with the guess's result; the stored history equals the in-memory history; nothing else changes |
| GameState.UpdateScore | static/state.js:22-34 | a correct guess adds one to `scoreCorrect` only, a wrong one adds one to `scoreWrong` only; the changed counter is persisted; one history entry is logged |
| GameState.Count | static/state.js:24-32 | only the matching counter and its storage key change, and the stored value reads back as the new count |
| GameState.UpdateScoreKeepsSync | static/state.js:26-30 | if both stored counters matched memory before the update, they still do afterwards |
| GameState.CountersNeverDecrease | static/state.js:22-32 | neither counter decreases, and their sum grows by exactly one |
| GameState.LoadScore | static/state.js:36-45 | the counters read back by the `parseInt(...) \|\| 0` rule and the history as stored, or [] when it is missing; the tiles and the storage are untouched |
| GameState.Restart | static/state.js:59-62 | both counters are 0 in memory and in storage |
| GameState.StartGame | static/state.js:64-68 | both counters are 0 and the history is empty, in memory and in storage |
| GameState.ResetThenLogRestoresHistory | static/state.js:11-17 | because `resetScore` keeps the in-memory history, the next `logGuess` stores the old history plus the new entry |
| GameState.LoadAfterStartIsIdle | static/state.js:36-45 | loading right after a start game reads back exactly the state the start left |
| Round.StartStep | static/round.js:7-49 | without a canvas, nothing changes; otherwise both counters are reset to 0 and the previous tile is a fresh tile for the level, with every value in its level domain |
| Round.RevealStep | static/round.js:54-70 | the step throws exactly when a tile slot is missing; otherwise the current tile is the mutation of the previous one, differs from it, and shares its position array exactly when the position was not changed |
| Round.StartThenReveal | static/round.js:7-85 | a reveal after a successful start always succeeds, and the revealed tile differs from the previous one |
| Scoring.Compare | static/score.js:10 | the comparison throws exactly when a tile is missing; for shape, colour and number it is value equality; for position it is identity |
| Scoring.Guess | static/score.js:6-23 | exactly one counter grows by one, according to the comparison; a new round is due exactly when the stored counters sum to 4 |
| Scoring.GuessBeforeStartThrows | static/state.js:3-9 | with both tiles still `null`, a guess and a reveal both throw a `TypeError` |
| Scoring.GuessAfterReveal | static/score.js:10 | after start and reveal, a guess on a dimension is correct exactly when that dimension is not in the diff, identity for position included |
| Scoring.PlayFlags | static/score.js:15-22 | in a run of guesses from synchronised counters, guess i starts a new round exactly when the counters' sum before it plus i + 1 is 4 |
| Scoring.GuessStep | static/score.js:15-22 | one guess keeps the counters synchronised and raises their sum by one |
| Scoring.FourthGuessStartsRound | static/score.js:17-22 | after a start and a reveal, exactly the fourth guess schedules a new round |
| Scoring.ReportLabelsMatchFeedback | static/score.js:25-42 | `getTileFeedback` gives each index in `correctGuesses`, `wrongGuesses` and `missed` the label that list stands for: correct, wrong and missed |
| TileBoard.NumberPool | static/tile.js:6 | the number pool is 1..n in order, and empty for n ≤ 0 |
| TileBoard.GridPositions | static/tile.js:38-46 | `gridSize²` distinct cells in row-major order with coordinates in [0, gridSize) |
| TileBoard.GenerateRandomTiles | static/tile.js:3-16 | `gridSize²` tiles; tile i sits at grid cell i; its number is in 1..numberPoolSize; its shape is one of the first `shapePoolSize` shuffled shapes |
| TileBoard.ShapePoolSizes | static/tile.js:5 | with 1 ≤ shapePoolSize ≤ 19 every tile gets a shape from the shuffled prefix, and with 0 none gets a shape |
| TileBoard.CreateModifiedTiles | static/tile.js:18-36 | on success: same length; `changes` distinct valid indices; each changed tile gets a different shape that is an entry of `shapes`, the current (possibly reordered) `SHAPES`, and keeps its other fields; every other tile is unchanged; an empty board with one change throws |
| TileBoard.Reshape | static/tile.js:26-33 | when it finishes (`Modified`): every chosen tile gets a shape from `shapes` different from its old one and keeps its other fields; the other tiles are unchanged |
| TileBoard.ShuffledShapesQualify | static/tile.js:5 | after the in-place random sort, `SHAPES` is still a non-empty list of declared shapes |
| TileBoard.GetTileFeedback | static/tile.js:48-53 | "correct" iff the index is in both lists, "wrong" iff only selected, "missed" iff only changed, null otherwise |
| TileBoard.CalculateScore | static/tile.js:55-68 | the hits and misses partition `selected` and keep its order; `missed` is `correct` in order with every selected index removed, each other index kept as often as it occurs; the score is hits minus misses |
| TileBoard.MissedCounts | static/tile.js:60 | filtering out the selected indices keeps every occurrence of an unselected index and no occurrence of a selected one |
| TileBoard.FeedbackMatchesReport | static/tile.js:48-68 | an index is labelled correct, wrong or missed exactly when it is in the report's matching list |
| Seqs.KeepDropPartition | static/tile.js:58-59 | filtering a list by a predicate and by its negation splits it without loss or duplication |
| Seqs.KeepIsSubseq | static/tile.js:58 | a filtered list keeps the original order |

## Left out

- Drawing and the DOM are not modelled. This covers the canvas and `renderTiles`, button
  text and disabled state, score text, overlays and help, event wiring, speech, charts and
  `applyColor` (`static/color.js:18-20`). They present state and decide nothing.
- Disabled buttons limit each dimension to one guess per round. This is not modelled: a
  `Scoring.Play` run may guess any dimension any number of times.
- `setTimeout` delays are not modelled. The start and reveal steps and the new-round rule
  are explicit steps with no clock.
- `fetch` logging and the server side (`main.py`, `pgmodel.py`) are left out. They are
  network and database plumbing.
- `static/app.js` is not part of this model. It calls functions it never imports.
- The net-score level-up thresholds 41/82 are left out. No code implements them.
- Default arguments are not modelled: `generateRandomTiles(gridSize = 4, shapePoolSize = 4,
  numberPoolSize = 5)` and `createModifiedTiles(…, changes = 2)` (`static/tile.js:3, 18`).
  Every call in the model passes all arguments.
- The `level` module variable is not global in the model. `Round.Session` carries it
  instead.
- `SHAPES.sort(() => 0.5 - Math.random())` (`static/tile.js:5`) is modelled as "some
  permutation of `SHAPES`". The comparator's draws and the engine's sort order are not
  modelled.
- The feedback side effect in `static/score.js:32-34` is left out. It writes to an
  undeclared `tiles` and throws a `ReferenceError` whenever a list is non-empty. The model
  keeps the returned report, and `Scoring.ReportLabelsMatchFeedback` states which labels
  that code would write.
- Property lookup in `shapeToEmoji` is modelled on the table's own keys only. Inherited
  `Object.prototype` keys such as "toString" are not modelled.
- Integer arguments are assumed throughout. Fractional or non-numeric levels and sizes,
  which JavaScript would accept, are not modelled.
- TileBoard.CreateModifiedTiles: the code loops forever when `changes` exceeds the number
  of tiles, and its redraw loops are unbounded. The model bounds the number of draws by
  `fuel`. When the draws run out it returns `Unfinished`, and its contract says nothing
  about which draws lead to success.
- TileBoard.Reshape: the do-while redraw of `static/tile.js:27-31` is bounded by `fuel`.
  When the draws run out it returns `Unfinished`, and its contract does not promise that
  it finishes.
- GameState.EntriesJson: string escaping in `JSON.stringify` is not modelled. Entry texts
  are copied between the quotes as they are. Only the leading `[` matters to the counters.
- GameState.LoadScore: a stored history that is plain text rather than an entry list gives
  `Failure`. The model does not run `JSON.parse` on arbitrary text.
- JsText.ParseInt: integers are unbounded. Double-precision rounding of very long digit
  runs is not modelled. `JsText.IntToText` always gives plain decimal text, while
  JavaScript's `String` switches to exponent form (`"1e+21"`) from 10^21 on, which
  `parseInt` reads as 1; `JsText.ParseIntRoundTrip` is therefore JavaScript's behaviour only
  below that bound. The counters never get near it: they are reset at every round start
  and a round ends after four guesses.
- Round.RevealStep: the `!mutated.position` guard (`static/round.js:56-68`) is not
  modelled. Every `Logic.Tile` has a position, so the mutation always has one and the guard
  could not fire.
- Logic.MutateTile: the 20-attempt retry loop and the forced fallback are modelled, but
  `Logic.FirstAttemptSucceeds` shows they are never reached. Every selected dimension is
  rewritten to a different value, so the first attempt always returns.
- `Logic.ChangedDimensions` compares by value, as the code's `JSON.stringify` texts do.
  Only `Scoring.Compare` models reference identity, through the `sharedPosition` flag.
