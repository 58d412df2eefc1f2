# Catch Frog — a Dafny model of the game core

Catch Frog is a small Swing game (`src/CatchFrog.java`). The player steers a
30×30 square with the arrow keys across a 1280×720 arena. Randomly placed
walls block the square. The square catches frogs, one point each, until a
ten-second countdown ends the round. The round's score is then appended to
a score history that is kept in `highscores.txt`. The high-score screen
sorts that history, largest first, and can clear it.

This project models the game-state core of that program and proves
properties of it:

- `geometry.dfy` (`Geometry`): rectangles, points and
  `java.awt.Rectangle.intersects`.
- `level.dfy` (`Level`): `spawnWalls`, a rejection loop that keeps candidate
  walls missing the start zone, and `spawnFrogs`. The random source is an
  explicit sequence of raw draws.
- `numerals.dfy` (`Numerals`): the Java library text functions the score
  file relies on: `Integer.toString`, `String.trim` and
  `Integer.parseInt`, with Java's 32-bit `int` range.
- `score_storage.dfy` (`ScoreStorage`): `saveScores`, `loadScores` and
  `clearScores`, with the file as an object holding its lines.
- `high_scores.dfy` (`HighScores`): the shared score history (`Ledger`,
  the `ArrayList<Integer>` that `GameFrame`, `GamePanel`, `GameOverMenu`
  and the high-score screen opened from Game Over share by reference), its
  in-place descending sort, the ranked listing, and the "Clear Scores"
  action. The main menu's high-score screen loads its own copy of the list
  from the file (`ShowStoredHighScores`).
- `game.dfy` (`Game`): `GamePanel` as a class. It has the frame tick
  (`actionPerformed`), the one-second countdown, and level generation in
  the constructor. It also has a whole round, "Start Game", "Retry", and a
  two-round session built from them.

The central facts proved:

- A frame moves the player by the held keys. It undoes the whole move if
  the new square meets any wall.
- A frame removes exactly the frogs the square meets, keeps the other frogs
  in order, and adds one point per caught frog.
- `score + frogs left` stays equal to the number of frogs the round started
  with, so the score never overflows an `int`. The time left stays between
  0 and 10, and the timers run exactly while it is positive.
- When the countdown reaches zero, the score is appended to the history
  exactly once and the history is saved.
- Loading the saved file gives back the history, in order, and lines that
  do not parse are skipped without affecting the rest.
- The high-score list is a descending permutation of the history. Such a
  list is unique, so ties cannot show. The list is numbered 1..N in order.
- Every generated wall lies within its bounds and misses the start zone.
  Every frog lies in the arena. No outcome of the random source is lost.

Where the code and the natural reading of the game differ, the model
follows the code:

- The first round started from the main menu has retry count 1, not 0. It
  therefore has 11 walls.
- A frog is caught by its 30×30 bounding square, not by the circle drawn
  for it.
- The score is per round. Every new round, including a retry, starts at 0.
- Walls are placed with `0 <= y < 700` and `0 <= x < 1280 - width`, so a
  wall never reaches the right or bottom border.

## Model

| member | source | states |
|---|---|---|
| Game.GamePanel.Tick | src/CatchFrog.java:224-254 | After a frame the invariant holds. Each held key moves its coordinate by `velocity`. The position is the moved one unless the moved square meets some wall, in which case both coordinates are restored. The frogs are the survivors of the final square and the score grows by the number caught. Once the timers have stopped nothing changes. |
| Game.GamePanel.FirstBlockingWall | src/CatchFrog.java:235-242 | The loop stops at the first wall the square meets: no earlier wall meets it, and it stops before the end exactly when some wall meets the square. |
| Game.GamePanel.CatchFrogs | src/CatchFrog.java:244-251 | `removeIf` leaves exactly the frogs the square misses, in order, and adds the number removed to the score; frogs plus score are preserved. |
| Game.Survivors | src/CatchFrog.java:244-251 | The frogs left are no more than before and none of them meets the player's square. |
| Game.Caught | src/CatchFrog.java:244-251 | Every frog removed meets the player's square. |
| Game.SurvivorsConcat | src/CatchFrog.java:244-251 | Removal decides frog by frog: the survivors of a concatenation are the concatenated survivors. |
| Game.SurvivorsMembers | src/CatchFrog.java:244-251 | A frog survives if and only if it was present and the square misses it. |
| Game.CatchSplits | src/CatchFrog.java:244-251 | Survivors and caught frogs together are exactly the frogs before, as a multiset and in number. |
| Game.SurvivorsStable | src/CatchFrog.java:244-251 | A second removal with the same square removes nothing. |
| Game.GamePanel.CountdownTick | src/CatchFrog.java:153-163 | Each second takes one off `timeLeft`. When it reaches 0 both timers stop, the score is appended to the history once, and the file then holds the history's lines. Before that the history and the file are untouched, and after the stop nothing changes. |
| Game.GamePanel.constructor | src/CatchFrog.java:137-165 | A new round runs with 10 seconds, score 0 and the player at (100, 100). Its walls are those the rejection loop accepts for `10 + retryCount` walls around the start zone. Its frogs are the drawn points. |
| Game.GamePanel.SpawnWalls | src/CatchFrog.java:167-190 | The loop builds exactly `AcceptedWalls` for the zone `(playerX - 50, playerY - 50, 150, 150)` and `baseWalls + retryCount` walls. |
| Game.GamePanel.SpawnFrogs | src/CatchFrog.java:192-199 | There are `count` frogs and frog i stands at the point drawn i-th. |
| Game.PlayRound | src/CatchFrog.java:150-164 | After ten seconds of frames and countdowns the round has stopped with `timeLeft == 0`. Its score is appended to the history exactly once, the file holds the history's lines, and loading the file gives back the whole history. |
| Game.StartGame | src/CatchFrog.java:95-97 | "Start Game" opens a new, running round with retry count 1, 10 seconds, score 0, the player at (100, 100), the accepted walls and the drawn frogs. Its new history is what the score file loads as, which is empty when the file is missing. |
| Game.Retry | src/CatchFrog.java:286-290 | A retry opens a new running round on the same history and file, with the retry count one higher and so one wall more wanted. It starts with 10 seconds, score 0, the player at (100, 100) and the drawn frogs. |
| Game.TwoRounds | src/CatchFrog.java:286-290 | A session of "Start Game", a round, "Retry" and a second round shares one history. That history is the loaded file followed by the two scores in the order played, and the file then loads as that history. |
| Level.WallFrom | src/CatchFrog.java:177-181 | Every candidate wall has width in [100, 200], height 20, `0 <= x < 1280 - width` and `0 <= y < 700`. |
| Level.EveryWallDrawable | src/CatchFrog.java:177-181 | Conversely, every wall within those bounds is a candidate some draw produces. |
| Level.AcceptedWalls | src/CatchFrog.java:176-189 | The loop keeps at most the wanted number of walls, each within bounds and missing the start zone. |
| Level.AcceptedWallsCount | src/CatchFrog.java:176-189 | It keeps exactly the wanted number whenever the draws hold that many acceptable candidates, and otherwise every acceptable one. |
| Level.FrogFrom | src/CatchFrog.java:197 | Every frog lies in `[0, 1280) × [0, 720)`. |
| Level.EveryFrogDrawable | src/CatchFrog.java:197 | Every point of the arena is a place some draw puts a frog. |
| Level.NextInt | src/CatchFrog.java:177-179 | A draw reduced by `nextInt(bound)` lies in `[0, bound)`. |
| Geometry.CatchDistance | src/CatchFrog.java:245-246 | The player catches a frog exactly when both coordinate differences are strictly less than 30. |
| Geometry.IntersectsSymmetric | src/CatchFrog.java:236 | Overlap does not depend on which rectangle asks. |
| Geometry.SharedEdgeIsNoHit | src/CatchFrog.java:184 | Rectangles that only share an edge, on any of the four sides, do not intersect. |
| Numerals.NatToString | src/CatchFrog.java:27 | The decimal text of n is non-empty, all digits, denotes n, and has no leading zero unless n is 0. |
| Numerals.TrimFront | src/CatchFrog.java:40 | The start index of `trim` skips only characters `<= ' '` and stops at the first other one. |
| Numerals.TrimBack | src/CatchFrog.java:40 | The end index of `trim` drops only characters `<= ' '` from the end and stops at the last other one. |
| Numerals.Trim | src/CatchFrog.java:40 | The trimmed text is empty or starts and ends with a character above `' '`. |
| Numerals.TrimCutsOnlyEnds | src/CatchFrog.java:40 | The trimmed text is a contiguous part of the line, and everything cut before and after it is `<= ' '`. |
| Numerals.TrimUntouched | src/CatchFrog.java:40 | Text that neither starts nor ends with a character `<= ' '` is left unchanged. |
| Numerals.TrimIdempotent | src/CatchFrog.java:40 | Trimming twice is the same as trimming once. |
| Numerals.IntToStringShape | src/CatchFrog.java:27 | `Integer.toString(n)`, as `println` and `StringBuilder.append` write it, is non-empty and starts with `-` exactly when n is negative. The digits after the sign denote the magnitude of n, `MIN_VALUE` included. |
| Numerals.ParseInt | src/CatchFrog.java:40 | `parseInt` accepts only an optional sign followed by ASCII digits. |
| Numerals.ParseIntToString | src/CatchFrog.java:27-40 | Every `int` written with `println` is read back by `parseInt` as itself. |
| Numerals.TrimIntToString | src/CatchFrog.java:27-40 | `trim` leaves a written `int` unchanged. |
| Numerals.IntToStringOnlySignAndDigits | src/CatchFrog.java:323 | A written `int` contains no character other than digits and `-`, in particular no `.`. |
| ScoreStorage.SaveScores | src/CatchFrog.java:24-28 | The write loop produces one line per score, the score's decimal text, in list order. |
| ScoreStorage.LoadScores | src/CatchFrog.java:34-47 | The read loop returns the values of the lines that parse, in file order. |
| ScoreStorage.ParsedConcat | src/CatchFrog.java:38-42 | Loading is line by line: a file loads as the concatenation of what its parts load as. |
| ScoreStorage.ParsedSkipsMalformed | src/CatchFrog.java:39-41 | A line `parseInt` rejects is dropped and changes nothing else. |
| ScoreStorage.ParsedKeepsWellFormed | src/CatchFrog.java:40 | A line that parses contributes its value, in its place. |
| ScoreStorage.ParsedMembers | src/CatchFrog.java:34-47 | A value is loaded if and only if some line of the file parses to it. |
| ScoreStorage.LoadAfterSave | src/CatchFrog.java:24-47 | Loading what was saved gives back the list, in order. |
| ScoreStorage.ScoreFile.Save | src/CatchFrog.java:24-32 | The file exists afterwards and holds the lines of the scores. |
| ScoreStorage.ScoreFile.Load | src/CatchFrog.java:34-47 | Loading gives the parsed lines, or the empty list when the file is missing. |
| ScoreStorage.ScoreFile.Clear | src/CatchFrog.java:49-56 | The file exists afterwards and is empty. |
| HighScores.SortDescending | src/CatchFrog.java:314 | The sorted list is non-increasing and a permutation of the input. |
| HighScores.SortedUnique | src/CatchFrog.java:314 | Two non-increasing lists with the same elements are equal, so the displayed order is fully determined. |
| HighScores.RankLines | src/CatchFrog.java:321-324 | One line per score, where line i is `(i+1) + ". " + score_i + "\n"`. |
| HighScores.ReadRankLineInverse | src/CatchFrog.java:323 | A rank line can be read back as the rank and the score it was made from. |
| HighScores.RanksReadBack | src/CatchFrog.java:321-324 | Read back, the listing shows exactly the ranks 1..N, in order, each next to the score in that place. |
| HighScores.Ledger.Add | src/CatchFrog.java:158 | The score is appended at the end of the history. |
| HighScores.Ledger.ShowHighScores | src/CatchFrog.java:314-326 | The history is sorted in place, largest first, without losing or adding scores. The text is the heading with the retry count followed by the rank lines. |
| HighScores.ShowStoredHighScores | src/CatchFrog.java:78 | The main-menu high-score screen shows the file's scores sorted largest first under the heading with retry count 0. |
| HighScores.Ledger.Clear | src/CatchFrog.java:349-353 | A confirmed clear empties the history and the file and leaves only the title on screen. |

## Left out

- The Swing user interface is not modelled: window layout, `paintComponent`, fonts and colours, and the Game Over window's labels. Only the text of the high-score area is modelled.
- Key listeners (`keyPressed`/`keyReleased`) are not modelled. The keys held during a frame are parameters of `Tick`.
- The "Clear Scores" confirmation dialog is not modelled. `Ledger.Clear` is the path taken when the user answers yes. The "No" path changes nothing.
- Timer scheduling is not modelled. Each timer callback runs to completion, and no frame runs after the timers stop. A frame event already queued when the timers stop is not modelled.
- The random source is not modelled. `java.util.Random` is replaced by caller-supplied draws, and its distribution is not modelled.
- Game.GamePanel.SpawnWalls: when the draws run out before enough walls are accepted, the model stops with fewer walls. The source keeps drawing without bound instead. `AcceptedWallsCount` states when the wanted count is reached.
- Game.GamePanel.constructor: the velocity `(int)(20 * (1 + retryCount * 0.15))` and the frog count `(int)(120 * (1 + retryCount * 0.3))` are floating-point formulas. They are parameters here.
- Game.GamePanel.Tick: does not model 32-bit wrap-around of `playerX`/`playerY`. It also does not model wrap-around of the corner sums inside `Rectangle.intersects`. Coordinates are unbounded because the arena has no border walls, and reaching the `int` limit takes about 10^8 frames of holding one key.
- Numerals.ParseInt: does not accept the non-ASCII Unicode digits that `Integer.parseInt` accepts. Its contract states that accepted text is a sign and digits, and the converse is proved only for text that `Integer.toString` produces (`ParseIntToString`).
- File I/O failures are not modelled. An `IOException` while saving or clearing is only logged in the source, and here saving and clearing always succeed. A read that fails part-way is also not modelled. A missing file is modelled and loads as the empty list.
- Line terminators are not modelled: the platform separator written by `println`, and the `\n`, `\r` and `\r\n` that `readLine` accepts. The file is its sequence of lines.
- Logging is not modelled.
- `System.exit` and window disposal are not modelled.
