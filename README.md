# Cavalo Guerreiro: a knight's-tour puzzle, modelled in Dafny

Cavalo Guerreiro ("warrior knight") is a browser puzzle in which a lone chess
knight walks a rectangular board and tries to visit every cell once. The knight
starts on a random cell, and each click moves it one knight's move onto a cell
it has not yet visited. The game ends when the knight has no such move left,
when the last of three lives is lost to a mine, or when the countdown of the
regressive mode runs out.

Items lie on 15% of the cells: food, a clock, a horseshoe, sand, a hole, a mine
or a massage cell. Each changes the score, the lives or the countdown when the
knight lands on it. Moves can be undone at a cost of five points each. The
score is ten points per visited cell, plus a speed bonus in progressive mode,
minus the undo penalty, and never negative.

When a game ends its record is handed on in four steps:

- the path library saves the walk for replay, CSV export and a text picture;
- the local store ranks the game, per board category and overall, keeping
  the best 100 of each;
- the local store adds the game to the global history (newest 1000) and the
  player's own history (newest 100);
- the achievement manager unlocks any of ten badges the game earned.

An analytics recorder logs every move, dead end, item and undo. From that
log it derives the post-game analysis: solution style, most frequent dead
end, characteristic turning direction, repeated three-move stretches and
percentiles against the stored history. The store also keeps player
profiles, with base64-encoded passwords, and settings.

Besides clicks, the knight can be moved with the arrow keys over its list of
moves, or by typing a cell in chess notation.

The model follows the program's structure:

| module (file) | models |
|---|---|
| `Knight` (knight.dfy) | knight moves, the score formula, the item count, the clock text (game.js) |
| `Walk` (walk.dfy) | the move history as a knight's walk: visited cells, position, path |
| `Items` (items.dfy) | the effect of each item kind on the counters (handleItem) and the item placement |
| `GameRules` (game_rules.dfy) | the game state as a value, every game.js operation as a function on it, the invariant of a session and the lemmas that each operation keeps it |
| `Game` (game.dfy) | class `GameSession`: the mutable game state, whose methods are proved equal to the `GameRules` functions |
| `AnalyticsRules`, `Analytics` (analytics_rules.dfy, analytics.dfy) | the recorder class `AnalyticsManager`, the loops of generateAnalysis and findRepeatedSequences, the percentile and the community comparison |
| `Storage` (storage.dfy) | the stored document as a value, class `StorageManager` around it: profiles, authentication, rankings, histories, settings, badges |
| `Paths` (path_library.dfy) | class `PathLibrary`: saving, lookup, replay, speeds, CSV export, the text picture of a walk |
| `Achievements` (achievements.dfy) | the ten badges, their tests, class `AchievementManager` |
| `Controls` (controls.dfy) | chess notation, typed coordinates, keyboard navigation, class `ControlManager` |
| `Handoff` (handoff.dfy) | endGame's hand-off of a finished game to the library, the store and the badges |
| `Common`, `Text`, `Seqs`, `Sorting`, `Base64`, `Records` | cells and modes; decimal text and `split`/`padStart`; sequence counting and de-duplication; a stable sort, with its stability proved; btoa/atob as the base64 of RFC 4648 with its round trip proved; the records the modules exchange |

Randomness, the clock, the DOM, audio, themes, timers and the browser's
storage are not modelled as such. The cell the random draw picks, the item
kinds drawn, and the current time `now` (Date.now()) are parameters. The
browser store is a `Document` value held by `StorageManager`, read when the
store is constructed and written through its methods.

Where the source does something its authors evidently did not intend (see
"Findings"), the model has both versions: a member suffixed `AsWritten` for
the code as it stands, and the corrected member. The badge tests, and the
hand-off that ends in them, take the reading as a `Rules` value (`AsWritten`
or `Corrected`), so both versions share one definition and one proof.

## Model

| member | source | states |
|---|---|---|
| Knight.ValidKnightMoves | game.js:179-198 | the list holds exactly the cells one knight move away that lie on the board and are not visited, at most eight, in the order of the source's offset table |
| Knight.ValidKnightMovesAgree | game.js:179-198 | the list is empty exactly when no knight offset leads to a free cell |
| Knight.MovesFrom | game.js:182-197 | the offsets from the k-th on give at most 8-k cells, each a knight step onto a free cell, in offset order |
| Knight.Score | game.js:359-371 | the score is never negative |
| Knight.ScoreIgnoresClock | game.js:359-371 | outside progressive mode the elapsed time does not change the score |
| Knight.ScoreUndoCost | game.js:359-371 | a move followed by its undo costs 15 points (10 for the cell, 5 for the undo) unless the score is clamped at zero |
| Knight.ScoreMonotone | game.js:359-371 | more visited cells never lower the score, more undos never raise it |
| Knight.ItemCount | game.js:376-377 | the number of items is floor(15% of the cells), and fewer than the cells on a non-empty board |
| Knight.JsRem | game.js:593-599 | JavaScript `%` agrees with the mathematical remainder for a non-negative dividend and stays strictly between -b and b |
| Knight.FormatTimeRoundTrip | game.js:720-725 | the "mm:ss" text of a non-negative time reads back as minutes and seconds below 60 adding up to its whole seconds |
| Text.Pad2 | game.js:724 | padStart(2, '0'): the text keeps its end and is filled with zeros on the left up to two characters |
| Walk.VisitedCount | game.js:321-356 | the visited set of a walk holds one cell per move plus the start |
| Walk.ExtendWalk | game.js:265-318 | a valid knight move from the knight's cell extends the walk; the visited set gains exactly the target, and pathSequence (`Targets` of the history) gains the target at its end |
| Walk.RetractWalk | game.js:515-551 | dropping the last move leaves a walk, with the knight on the move's `from` cell, the visited set less exactly its `to` cell and pathSequence (`Targets` of the history) less its last cell |
| Walk.RetractLeavesMove | game.js:515-551 | after an undo the cell just left is again a valid move, so the stuck check never ends the game then |
| Items.ItemEffectSpec | game.js:426-474 | every item is counted; only a mine costs a life and counts a hit, each by one; no item touches the countdown outside regressive mode; the massage effect is on after a massage item |
| Items.MinesInRemove | game.js:346-355 | taking an item off a cell removes one mine exactly when it was a mine |
| Items.MinesInAdd | game.js:393-397 | putting an item on a free cell adds one mine exactly when it is a mine |
| Items.ItemsOfSpec | game.js:374-409 | with distinct drawn cells, the board holds exactly the drawn cells with their drawn kinds, one entry per draw, and minesOnBoard mines |
| GameRules.RecordOf | game.js:624-645 | the record endGame builds carries the visited count, the score, the move count, the final knight cell and the path, and no `totalTime` |
| GameRules.ValidMovesAgree | game.js:179-198 | a target is in getValidKnightMoves exactly when it is a knight move onto a free cell; the list is empty exactly when the knight is stuck |
| GameRules.ItemStep | game.js:254-258 | handling the item on the target leaves the walk, the board and the clock alone |
| GameRules.ItemStepEffect | game.js:426-474 | the counters follow the item's effect, the pickup is logged, and the game ends exactly when a mine takes the last life, with a record of the game before the move |
| GameRules.MoveKnightEffect | game.js:265-318 | the move joins the history with the score and visited count before it; knight, visited set, items, path and move counter follow; the score is the formula's; a running game ends exactly when the knight is left without a move, and the analytics log gains the numbered move |
| GameRules.MoveKnightWalk | game.js:268-305 | after a move the history, knight, visited set, items, path and move count are updated, the score is the formula's and every other counter is unchanged |
| GameRules.MoveKnightStatus | game.js:305-317 | after a move a running game is over exactly when the knight is stuck, and then the timer is stopped and the record built |
| GameRules.MoveKnightLog | game.js:276-280 | the analytics log gains the numbered move and stays consistent, also when the dead end is logged |
| GameRules.ClickEffect | game.js:239-262 | a click on a valid move of a running game: item effect, then the move; the item's points are overwritten by the score formula; the game is over exactly on a fatal mine or a dead end, and after a fatal mine the move is still made while the record stored in the history shows the game before it |
| GameRules.ClickKeepsInv | game.js:239-262 | a click keeps the session invariant (walk, board, score, status and log consistency) |
| GameRules.ClickChangesIffValid | game.js:239-252 | a click changes the session exactly when the game is running and the target is in the list of valid moves |
| GameRules.NotStuck | game.js:227-235 | a knight with a move onto a free cell is not stuck |
| GameRules.UndoEffect | game.js:515-551 | an undo drops the last move, gives its target back, returns the knight to its `from` cell, counts the undo (also in the log), recomputes the score with the penalty and leaves the game running |
| GameRules.UndoKeepsWalk | game.js:515-551 | after an undo the history is still a knight's walk from the same origin |
| GameRules.UndoKeepsInv | game.js:515-551 | an undo keeps the session invariant |
| GameRules.UndoAfterClick | game.js:515-551 | undoing a click that left the game running restores history, knight, visited cells, path and move count; the item stays consumed, its effect kept, and one undo more is charged |
| GameRules.TickEffect | game.js:554-585 | a regressive tick lowers the countdown by one second and ends a running game exactly when it reaches zero; other modes only refresh the elapsed seconds, and progressive mode the score with them |
| GameRules.TickKeepsInv | game.js:563-583 | a timer tick keeps the session invariant |
| GameRules.ClockKeepsInv | game.js:561-573 | a free or progressive tick keeps the session invariant |
| GameRules.CountdownKeepsInv | game.js:574-583 | a regressive tick keeps the session invariant, also when it ends the game |
| GameRules.MassageTimeoutKeepsInv | game.js:497-498 | the end of the massage effect switches it off and keeps the invariant |
| GameRules.ResetClears | game.js:30-49 | reset clears the walk, score, counters, items and status; as written it keeps the countdown, corrected it restores 300 s |
| GameRules.SetUpEffect | game.js:66-97 | on a cleared session the new game has the chosen board and mode, the knight on the start cell as the only visited one, exactly the drawn items, a running timer from `now` and a fresh log knowing the start; it is over at once exactly when the start cell has no move |
| GameRules.SetUpInv | game.js:66-97 | a game set up with a valid draw satisfies the invariant and holds ItemCount items |
| GameRules.InitGameSpec | game.js:66-97 | initGame starts a game satisfying the invariant, with the knight on the start cell and three lives; the corrected version has a 300 s countdown, the version as written the previous game's |
| GameRules.RestartAfterTimeoutAsWritten | game.js:30-49 | as written, after a regressive game times out, the first tick of the next regressive game ends it |
| GameRules.RestartAfterTimeout | game.js:30-49 | with reset restoring the countdown, the first tick of a new regressive game leaves it running with 299 s |
| Game.GameSession.constructor | game.js:3-28 | a new game state: 8x8 free mode, no knight, 300 s countdown, three lives |
| Game.GameSession.ResetAsWritten | game.js:30-49 | the state becomes GameRules.Reset of the old one |
| Game.GameSession.Reset | game.js:30-49 | the state becomes GameRules.ResetFixed of the old one (countdown restored) |
| Game.GameSession.UpdateScore | game.js:359-371 | the score field becomes the formula's value, never negative |
| Game.GameSession.EndGame | game.js:606-645 | a no-op once over; otherwise the game is over, the timer stopped and the record built |
| Game.GameSession.HighlightAvailableMoves | game.js:201-236 | with no move left in a running game, the dead end is logged and the game ends; the recorder stays valid |
| Game.GameSession.VisitCell | game.js:321-356 | a visited cell changes nothing; a new one joins the visited set and loses its item |
| Game.GameSession.HandleItem | game.js:426-474 | the state becomes GameRules.HandleItem: pickup logged, effect applied, game ended by a fatal mine |
| Game.GameSession.Switch | game.js:429-471 | the counters become the item kind's effect on the old counters |
| Game.GameSession.MoveKnight | game.js:265-318 | the state becomes GameRules.MoveKnight of the old one |
| Game.GameSession.Advance | game.js:268-304 | the state becomes GameRules.Advance of the old one: history, log, knight, visited cell, path and move count |
| Game.GameSession.HandleCellClick | game.js:238-262 | the state becomes GameRules.HandleCellClick of the old one and a valid session stays valid |
| Game.GameSession.UndoMove | game.js:515-551 | the state becomes GameRules.UndoMove of the old one and a valid session stays valid |
| Game.GameSession.TakeBack | game.js:518-550 | with a move to undo in a running game, the state becomes GameRules.UndoMove of the old one |
| Game.GameSession.StartTimer | game.js:554-585 | the start time is `now` and the interval timer is installed |
| Game.GameSession.Tick | game.js:563-583 | the state becomes GameRules.Tick of the old one and a valid session stays valid |
| Game.GameSession.MassageTimeout | game.js:497-498 | the massage effect ends and a valid session stays valid |
| Game.GameSession.PlaceKnight | game.js:154-176 | the knight stands on the drawn cell, the start is logged, the cell visited and the stuck check run |
| Game.GameSession.PlaceItems | game.js:374-409 | the drawn items are put on the board and minesOnBoard counts the mines among them |
| Game.GameSession.PutItems | game.js:381-397 | the loop adds each drawn item in turn and counts the mines |
| Game.GameSession.SetUp | game.js:84-97 | board size and mode taken, log started, knight and items placed, timer started |
| Game.GameSession.InitGameAsWritten | game.js:66-97 | the state becomes GameRules.InitGameAsWritten of the old one |
| Game.GameSession.InitGame | game.js:66-97 | the state becomes GameRules.InitGame of the old one; the new session is valid, with a 300 s countdown, the knight on the start cell and ItemCount items |
| Analytics.NewLogConsistent | analytics.js:7-20 | a fresh log is consistent |
| Analytics.LogMoveConsistent | analytics.js:28-47 | recording a move keeps the log consistent and numbers the move one past the previous count |
| Analytics.StuckKeepsConsistent | analytics.js:49-54 | logging a dead end keeps the log consistent |
| Analytics.AnalysisBounds | analytics.js:72-174 | for a consistent log with moves: between one visited cell and one per move, fewer turns than moves, and every repeated window a stretch of the path |
| Analytics.AnalyticsManager.constructor | analytics.js:3-5 | no game is being recorded |
| Analytics.AnalyticsManager.StartGameAnalysis | analytics.js:7-20 | a fresh log replaces any previous one |
| Analytics.AnalyticsManager.RecordStartPosition | analytics.js:22-26 | the start cell is recorded, and nothing happens before a game is started |
| Analytics.AnalyticsManager.RecordMove | analytics.js:28-47 | the move is appended with its time since the start and its number, its target joins the path and the visited set; nothing happens before a game is started |
| Analytics.AnalyticsManager.RecordStuckPosition | analytics.js:49-54 | the dead end is appended, when a game is being recorded |
| Analytics.AnalyticsManager.RecordItemInteraction | analytics.js:56-64 | the pickup is appended with its time since the start, when a game is being recorded |
| Analytics.AnalyticsManager.RecordUndo | analytics.js:66-70 | the undo is counted and the move log keeps the undone move |
| Analytics.AnalyticsManager.Reset | analytics.js:254-256 | no game is being recorded afterwards |
| Analytics.AnalyticsManager.GenerateAnalysis | analytics.js:72-174 | null exactly when no game is recorded or it has no move; otherwise the analysis of the log, computed by the source's loops |
| Analytics.CompareWithCommunity | analytics.js:210-245 | null exactly when the stored history is empty |
| Analytics.TimePercentileZero | analytics.js:238-243 | when no game record carries totalTime, as none endGame builds does, a player whose game took any non-negative time is at the 0th time percentile |
| Analytics.HousesPercentileTop | analytics.js:232-237 | a player who visited any cell is always placed at the 100th houses percentile, because no stored record has a totalHouses key and the sample is all zeros |
| AnalyticsRules.CoverageRatio | analytics.js:89-91 | the coverage ratio is defined and non-negative for a non-zero board width |
| AnalyticsRules.SolutionStyleThresholds | analytics.js:110-115 | open exactly when coverage > 0.7 and dispersion > 0.6; closed exactly when not open and coverage < 0.5 or dispersion < 0.4 |
| AnalyticsRules.SolutionStyleMonotone | analytics.js:110-115 | more coverage or more dispersion never makes the style more focused |
| AnalyticsRules.CountTurns | analytics.js:127-142 | the loop counts exactly the clockwise and the counterclockwise turns between consecutive headings, at most one per pair |
| AnalyticsRules.Turns | analytics.js:127-142 | one turn for each pair of consecutive headings |
| AnalyticsRules.CharacteristicDirection | analytics.js:144-149 | clockwise implies more clockwise turns, counterclockwise more counterclockwise ones, equal counts give balanced |
| AnalyticsRules.DirectionMirror | analytics.js:144-149 | swapping the counters swaps clockwise and counterclockwise |
| AnalyticsRules.Pick | analytics.js:122-124 | the reduce gives null exactly for no keys, otherwise one of the keys |
| AnalyticsRules.PickIsMaximum | analytics.js:122-124 | the key picked has the largest count |
| AnalyticsRules.PickIsLast | analytics.js:122-124 | every key after the picked one has a strictly smaller count: ties go to the later key |
| AnalyticsRules.MostStuckSpec | analytics.js:117-124 | none exactly when no dead end was logged; otherwise a logged cell of maximal count, with no later-first-seen cell of equal count |
| AnalyticsRules.CountStuck | analytics.js:118-121 | the counting pass gives each dead end its number of occurrences and lists the cells in first-seen order |
| AnalyticsRules.ReduceStuck | analytics.js:122-124 | the reduce loop picks what Pick specifies |
| AnalyticsRules.MostStuckPosition | analytics.js:117-124 | the two passes together give MostStuck of the logged dead ends |
| AnalyticsRules.RepeatedSequencesSound | analytics.js:176-206 | every entry is a window of length 3 occurring at more than one position, with that number of positions as count |
| AnalyticsRules.RepeatedSequencesComplete | analytics.js:176-206 | every window occurring at more than one position is listed |
| AnalyticsRules.RepeatedSequencesDistinct | analytics.js:196-204 | no window is listed twice |
| AnalyticsRules.RepeatedSequencesOrder | analytics.js:176-206 | the entries come in the order in which their windows first occur in the path |
| AnalyticsRules.CandidatesOrder | analytics.js:180-194 | the first loop pushes its entries in position order: an entry listed first has the window that occurs first |
| Seqs.Dedupe | analytics.js:196-204 | the de-duplicated list holds the same elements, each once |
| AnalyticsRules.CountWindow | analytics.js:183-189 | the inner loop counts the positions of the window |
| AnalyticsRules.CollectRepeats | analytics.js:178-194 | the outer loop pushes each repeated window with its count, in position order |
| AnalyticsRules.DropRepeatedWindows | analytics.js:196-204 | the `seen` pass keeps the first entry of each window |
| AnalyticsRules.DropStep | analytics.js:196-204 | one step of the `seen` pass keeps an entry exactly when its window is new, continuing Dedupe |
| AnalyticsRules.FindRepeatedSequences | analytics.js:176-206 | the method returns RepeatedSequences of the path |
| AnalyticsRules.SortedSample | analytics.js:249 | the sample is sorted ascending (descending when reversed) and is a permutation of the input |
| AnalyticsRules.FindIndex | analytics.js:250 | the index found is the first element satisfying the test; none when no element does |
| AnalyticsRules.PercentileCounts | analytics.js:247-252 | the percentile is the share of sample values strictly ahead of the player, as a percentage below 100, or 100 when all are ahead; the sample's order does not matter |
| Storage.InitialDocument | storage.js:8-29 | no profiles, no history, empty rankings and the seven default settings |
| Storage.Active | storage.js:92-94 | a missing or empty session name means nobody is logged in |
| Storage.ValidPasswordIsByteString | storage.js:51-56 | every password the pattern admits can be given to btoa |
| Storage.CreateOutcome | storage.js:41-53 | created exactly when the name is free, 5-13 alphanumerics, and the password 4-9 allowed characters; a taken name is reported first, then the name, then the password |
| Storage.NewProfile | storage.js:55-71 | a fresh profile has no badges, no history, and a stored password that decodes to the password |
| Storage.Authenticate | storage.js:77-90 | success exactly when the profile exists and its decoded password equals the one given, returning that profile; "unknown user" exactly when there is no profile |
| Storage.CreateThenAuthenticate | storage.js:41-90 | a profile just created authenticates with its password and no other, other names answer as before, and the name cannot be created again |
| Storage.CurrentProfile | storage.js:92-98 | the logged-in name and its profile, exactly when someone with a profile is logged in |
| Storage.RankBeforeTotal | storage.js:129-133 | the ranking comparator (score down, houses down, time up) is a total preorder |
| Storage.CategoryKeyInjective | storage.js:110 | different board sizes or modes never share a ranking category |
| Storage.CategoryKeyCut | storage.js:110 | the category key splits back into the board size and the mode name |
| Storage.Take | storage.js:136-138 | slice(0, n): the first n entries, or all of them |
| Storage.RankedSpec | storage.js:128-150 | after an entry is added a list is ordered best first, holds at most 100 entries from the old list and the entry, loses none below 100, and drops the entry only when 100 entries rank at least as high |
| Storage.TakeOfSorted | storage.js:136-138 | the top n of an ordered list are ordered and rank no lower than those cut |
| Storage.EntryOf | storage.js:116-126 | the ranking line carries the player, score, houses and time of the game, stamped now |
| Storage.AddRanking | storage.js:105-153 | ranking a game changes only the rankings |
| Storage.AddRankingLists | storage.js:105-153 | the game's category list and the general list each get the entry ranked in; every other category is unchanged |
| Storage.KeepLast | storage.js:176-178 | slice(-n): the newest n records, or all of them |
| Storage.AppendKeepLast | storage.js:175-185 | a history after a record is appended ends with it and keeps the newest earlier ones up to the cap |
| Storage.AddHistory | storage.js:164-189 | a save changes only the histories; the set of players is the same |
| Storage.AddHistoryGlobal | storage.js:169-178 | the global history ends with the stamped record and keeps the newest earlier ones, up to 1000 |
| Storage.AddHistoryOwn | storage.js:180-186 | the player's own history ends with the stamped record and keeps the newest earlier ones, up to 100 |
| Storage.AddHistoryOthers | storage.js:180-186 | every other player's history is unchanged |
| Storage.AddHistoryAppends | storage.js:180-186 | below 100 records the save appends to the player's own history and drops nothing |
| Records.Stamp | storage.js:169-173 | the stored record of a game carries the player, the time of saving and the game; the record of a saved path is the path |
| Storage.MergeSettings | storage.js:205-209 | the new settings override, all other settings stay, and no setting is lost |
| Storage.MergeSettingsIdempotent | storage.js:205-209 | applying the same settings twice is the same as once |
| Storage.UnlockOutcome | storage.js:212-222 | nothing for a name with no profile, true exactly when the badge is new for an existing profile |
| Storage.UnlockSpec | storage.js:212-222 | after an unlock the badge is held, earlier badges keep their order, no duplicate appears, and a second unlock answers false and changes nothing |
| Storage.StorageManager.constructor | storage.js:3-29 | the stored document, or the initial one when nothing is stored |
| Storage.StorageManager.CreateProfile | storage.js:41-75 | the answer is CreateOutcome, and the profile is added exactly when it is Created |
| Storage.StorageManager.SetCurrentProfile | storage.js:100-102 | the name becomes the session's user |
| Storage.StorageManager.UpdateRanking | storage.js:105-153 | nothing without a logged-in player, otherwise AddRanking |
| Storage.StorageManager.SaveGameHistory | storage.js:164-189 | nothing without a logged-in player, otherwise AddHistory |
| Storage.StorageManager.UpdateSettings | storage.js:205-209 | the settings become the merge of the old and the new |
| Storage.StorageManager.UnlockAchievement | storage.js:212-222 | the answer is UnlockOutcome and the store the unlocked one |
| Sorting.Sort | storage.js:129-133 | the sorted list is ordered by the comparator and a permutation of the input |
| Sorting.SortStable | storage.js:129-133 | the sort is stable: the elements tied with any value keep their input order, as Array.prototype.sort does |
| Base64.Encode | storage.js:56 | btoa gives four characters per started group of three bytes |
| Base64.DecodeEncode | storage.js:56-85 | atob(btoa(s)) == s for every byte string |
| Paths.FindPath | pathLibrary.js:33-35 | the path found has the id and is a saved record; none exactly when no saved path has the id |
| Paths.FindPathFirst | pathLibrary.js:33-35 | the path found is the one at the first position with the id |
| Paths.FilterMembers | pathLibrary.js:37-42 | getAllPaths for a player holds exactly that player's records |
| Paths.FilterCount | pathLibrary.js:37-42 | each record of the player appears as often as in the library |
| Paths.FilterAppend | pathLibrary.js:37-42 | filtering keeps the library's order |
| Paths.ContinuousUpToSign | pathLibrary.js:111-118 | a move is continuous exactly when its offsets equal the previous move's up to sign, so a move straight back counts too |
| Paths.CsvLineReadBack | pathLibrary.js:137-139 | each CSV line reads back as the move's number, cells and time, and holds no line break |
| Paths.CsvReadBack | pathLibrary.js:134-140 | the export splits into the header, one line per move and an empty rest; line k reads back as k and the k-th move |
| Paths.CsvSnoc | pathLibrary.js:136-140 | one more move adds its line and a line break to the CSV text |
| Paths.LastMoveToSpec | pathLibrary.js:153-157 | the move shown on a cell is the last one ending there; none exactly when no move ends there |
| Paths.LabelAvoids | pathLibrary.js:156 | a cell's label holds no space and no line break |
| Paths.LabelAfterAll | pathLibrary.js:153-157 | writing the moves one by one leaves each cell with the label of its last move |
| Paths.RenderGrid | pathLibrary.js:146-165 | the picture has a leading empty line, one line per row and an empty rest; each row splits into its cells, '.' where no move ends and else the 2-digit number of the last move there |
| Paths.SavedCountLosesMoves | pathLibrary.js:13-30 | saved as written a game with moves replays none, cannot be exported as CSV or drawn; saved with its move log, it replays every move and draws its picture |
| Paths.PathLibrary.constructor | pathLibrary.js:3-11 | the library starts from the stored global history |
| Paths.PathLibrary.Keep | pathLibrary.js:28-29 | the path is appended to the library and saved in the store's history |
| Paths.PathLibrary.SavePathAsWritten | pathLibrary.js:13-31 | the record built as written is appended to the library and the store's history |
| Paths.PathLibrary.SavePath | pathLibrary.js:13-31 | the record with the move log is appended to the library and the store's history |
| Paths.PathLibrary.ReplayPath | pathLibrary.js:45-72 | no call for an unknown id; otherwise onMove for each move with its 1-based number and the total, then onComplete |
| Paths.PathLibrary.CalculateOptimizedSpeeds | pathLibrary.js:100-125 | one speed per move: 2 for the first, then 3 for a continuous move and 1.5 otherwise |
| Paths.PathLibrary.CsvExport | pathLibrary.js:136-140 | the loop builds the CSV text Csv specifies |
| Paths.PathLibrary.ExportPath | pathLibrary.js:128-143 | nothing for an unknown id or another format; the record for "json"; for "csv" the text, or the failure of a record storing a move count |
| Paths.PathLibrary.Draw | pathLibrary.js:150-164 | the picture of the moves, or none exactly when a move lands off the board |
| Paths.PathLibrary.Mark | pathLibrary.js:153-157 | the loop writes each cell's label, and succeeds exactly when every move is on the board |
| Paths.PathLibrary.Show | pathLibrary.js:159-162 | the rendering loop produces Render of the board |
| Paths.PathLibrary.GeneratePathVisualization | pathLibrary.js:146-165 | nothing for an unknown id, otherwise the picture or the failure |
| Achievements.BadgeOf | achievements.js:140 | a key found in the table names that badge |
| Achievements.BadgeOfId | achievements.js:4-75 | every badge is found under its own key |
| Achievements.MarathonTests | achievements.js:130-134 | as written marathon counts history records; as intended it counts games |
| Achievements.LegendIsStrategist | achievements.js:120-128 | a legend score is also a strategist score |
| Achievements.SpeedsterNeverEarned | achievements.js:100-103 | as written speedster is never earned by a record without totalTime, which every record endGame builds is |
| Achievements.SpeedsterByTime | achievements.js:100-103 | corrected: tested by its recorded time, speedster goes to a player lacking it exactly when the game took under two minutes |
| Achievements.SpeedsterNeverUnlocked | achievements.js:100-103 | as written, a check of a game without totalTime never returns speedster |
| Achievements.ProcessSpec | achievements.js:78-147 | under either reading of the tests, the badges returned are exactly the passing ones the player did not hold, in test order; the player's list grows by exactly their keys; nothing else in the store changes; no profile, no badge |
| Achievements.ProcessKeepsHistory | achievements.js:78-137 | checking badges leaves every history and the set of players unchanged |
| Achievements.ProcessNothingNew | achievements.js:139-147 | testing badges all held already unlocks nothing and changes nothing |
| Achievements.CheckTwice | achievements.js:78-147 | a second check of the same game returns no badge |
| Achievements.StatusAfterProcess | achievements.js:175-184 | after a check, getAchievements shows a badge unlocked exactly when it was unlocked before or the check returned it |
| Achievements.AchievementManager.constructor | achievements.js:3-76 | the manager works through the given store |
| Achievements.AchievementManager.Unlock | achievements.js:139-147 | an unknown key changes nothing; a known badge is unlocked in the store and appended when new |
| Achievements.AchievementManager.CheckAchievementsAsWritten | achievements.js:78-137 | as written: nothing without a logged-in player; otherwise the badges are tested in the source's order, speedster on totalTime and marathon on the number of history records, and the store and list are Process of the old store |
| Achievements.AchievementManager.CheckAchievements | achievements.js:78-137 | corrected: as CheckAchievementsAsWritten, but speedster tests the recorded time and marathon the number of games |
| Achievements.AchievementManager.CheckProgress | achievements.js:84-98 | the firstMove, explorer and master tests |
| Achievements.AchievementManager.CheckPlay | achievements.js:100-118 | the speedster (on totalTime as written, on the recorded time corrected), collector, survivor and perfect tests |
| Achievements.AchievementManager.CheckScore | achievements.js:120-128 | the strategist and legend tests |
| Achievements.AchievementManager.Consider | achievements.js:85-87 | one test: the badge is unlocked when it passes |
| Controls.ChessNotationRoundTrip | controls.js:161-177 | the notation of a cell in the first 26 columns and nine rows reads back as that cell |
| Controls.LongRankMisread | controls.js:169-177 | from the tenth rank on only the first rank digit is read, so the row read is never the cell's own; "a10" reads as row 0 |
| Controls.CoordinateOutcomeSpec | controls.js:105-138 | typed text moves the knight exactly when it names a cell the knight can move to, and then to that cell; under two characters is ignored; an unreadable rank is an invalid coordinate |
| Controls.AsWrittenMovesAreMoves | controls.js:116-117 | every move the as-written check allows, the corrected one allows too |
| Controls.RowCheckedAgainstWidth | controls.js:116-117 | on a 5-wide, 8-tall board "a7" is refused as written though the knight can move to row 6, column 0; corrected it moves there |
| Controls.CeilSqrt | controls.js:40 | Math.ceil(Math.sqrt(n)) is the least k with k*k >= n |
| Controls.NavigateInRange | controls.js:40-51 | every arrow key keeps a selection in the list; up and left stop at the first move, down and right at the last |
| Controls.NavigateInverse | controls.js:43-51 | away from the edges up undoes down and left undoes right |
| Controls.PressKeySpec | controls.js:33-69 | a key clicks exactly on Enter or Space with a selection among the moves, clicking that move and going back to the first; after an arrow the highlighted cell is the move at the new index |
| Controls.KeyboardClickMoves | controls.js:56-63 | a keyboard click in a running game always moves the knight |
| Controls.ControlManager.constructor | controls.js:3-8 | touch mode, nothing selected |
| Controls.ControlManager.SetControlMode | controls.js:15-18 | the mode is set |
| Controls.ControlManager.HandleCoordinateInputAsWritten | controls.js:105-138 | as written: the outcome is CoordinateOutcomeAsWritten (row checked against the width), and a move goes through handleCellClick; a valid session stays valid |
| Controls.ControlManager.HandleCoordinateInput | controls.js:105-138 | corrected: the outcome is CoordinateOutcome (row checked against the height), and a move goes through handleCellClick; a valid session stays valid |
| Controls.ControlManager.HighlightKeyboardSelection | controls.js:73-83 | the selected cell is the move at the index, or none off the list |
| Controls.ControlManager.ClearKeyboardSelection | controls.js:85-90 | nothing is selected |
| Controls.ControlManager.Navigation | controls.js:34-54 | the index moves as Navigate says and the selection follows it |
| Controls.ControlManager.KeyDown | controls.js:23-70 | the selection and the game change as PressKey says for the keyboard's list of moves; a valid session stays valid |
| Handoff.SavedHistory | game.js:647-654 | the saves append two records to the player's history: the path, then the game |
| Handoff.RankingKeepsProfiles | game.js:651 | ranking a game touches no profile |
| Handoff.HandOffHistory | game.js:647-657 | after the whole hand-off the player's history has the path and then the game appended |
| Handoff.HandOffLoggedOut | game.js:647-657 | without a logged-in player nothing is stored and no badge unlocked |
| Handoff.PlayHistory | game.js:647-657 | after a series of games the player's history holds two records per game, one of which is the game |
| Handoff.MarathonHistory | game.js:647-657 | at the end of the (n+1)-th game of a new player the history holds 2(n+1) records and n+1 games |
| Handoff.MarathonCountAsWritten | achievements.js:130-134 | as written the marathon test passes from the fifth game on |
| Handoff.MarathonCount | achievements.js:130-134 | counting games, the marathon test passes from the tenth game on |
| Handoff.HandOffRecordAsWritten | game.js:647-657 | as written: the path with the move count is appended to the library, and the store and the badges are those of HandOff on the old store with the tests as written |
| Handoff.HandOffRecord | game.js:647-657 | corrected: the path keeps the move log, and speedster and marathon test the recorded time and the number of games |

## Left out

- The DOM, audio, themes, speech, notifications, modals and CSS effects. Only the state they leave behind is modelled.
- Randomness and the clock. The drawn start cell, the drawn items and Date.now() are parameters.
- The placeItems redraw loop is not modelled. Its result is the `choices` parameter, which `ValidPlacement` constrains.
- Timers are not modelled as such. The interval is the flag `timerRunning` with `Tick` as its callback, the massage timeout is `MassageTimeout`, and the pauses of replayPath and sleep are left out.
- localStorage and sessionStorage: the stored JSON is the `Document` value, and the session's user is a field.
- Keys inherited from Object.prototype are not modelled. For example, a profile named "constructor" would make the source's lookups misbehave.
- The top-level `achievements` object that init stores is never read by the source and is left out.
- getSettings, getRankings and getAchievements of the store are plain reads, modelled as functions without contracts.
- The showInputError pop-up, updateControlUI, the text box's trim and lowercase, and the event wiring are left out. Controls.ControlManager.HandleCoordinateInput takes the text as the handler passes it.
- replayOptimizedPath and downloadPath are left out. The first only adds the pauses set by CalculateOptimizedSpeeds; the second is a browser download of ExportPath's text.
- The JSON branch of exportPath returns the record itself (`AsJson`), not its text: JSON.stringify is not modelled.
- Analytics.AnalyticsManager.GenerateAnalysis: the dispersion of the visited cells is floating-point geometry. It comes in as the parameter `dispersion`.
- Analytics.AnalyticsManager.GenerateAnalysis: the turn direction is computed with exact integer offsets rather than atan2 angles. An exact reversal of heading, where the source's sign depends on floating-point angles, is decided by the parameter `reversalCw`.
- Analytics.AnalyticsManager.GenerateAnalysis and Analytics.CompareWithCommunity: JavaScript numbers are IEEE-754 doubles, and their quotients here are exact `real`s. The rounding is not modelled for advanceRate, averageMoveTime, the coverage ratio (AnalyticsRules.CoverageRatio), the community averages or the percentile (AnalyticsRules.CalculatePercentile). A 1000 ms game of three moves, for instance, has an averageMoveTime of exactly 1000/3 here rather than 333.3333333333333. A threshold test (the 0.7 and 0.5 coverage bounds) can come out differently only for a quotient within rounding error of its bound.
- Analytics.CompareWithCommunity: the advanceRate metric is left out. It reads an analysis stored inside each history record, which the model's records do not carry.
- Analytics.CompareWithCommunity: the board-size and mode filter is modelled as what it does. It compares `config` keys that neither side has, so every record passes.
- Paths.PathLibrary.Draw: every move off the board counts as a failure. In the source an off-board row throws, but an off-board column silently widens the row array (or sets an ignored property), and the picture is then printed.
- Controls.ChessNotationRoundTrip: stated for the first 26 columns and nine rows. Longer ranks are covered by Controls.LongRankMisread.
- Controls.ToChessNotation requires `0 <= col` and a column below the UTF-16 surrogate range. For a negative column, or one past that range, String.fromCharCode's 16-bit wrap-around is not modelled. Every cell the model passes has a column from 0 up.
- Controls.Lower lowercases ASCII letters only, and JavaScript strings are sequences of UTF-16 code units while Dafny's `char` is a Unicode scalar value. Text outside ASCII is not modelled faithfully.
- Controls.ControlManager.KeyDown: the keydown handler's unused `rows` variable is left out, and its closure variable `selectedIndex` is a field of the class.
- Game.GameSession.HandleCellClick requires a knight on the board while the game runs. The source would throw a TypeError there, and no sequence of its own operations reaches that state after initGame.
- Controls.ControlManager.HandleCoordinateInput and Controls.ControlManager.HandleCoordinateInputAsWritten: the TypeError the source throws when no knight is placed is the outcome `NoKnight`.
- Paths.PathLibrary.Keep: the library keeps a copy of the path record. In the source, endGame hands pathSequence and the move log to savePath by reference (game.js:628-645, pathLibrary.js:20). So after a fatal mine, the move moveKnight still makes also grows the path of the library's last entry in memory, but not the stored JSON copy. The model does not capture this aliasing.
- Handoff.HandOffRecord: the corrected hand-off. It saves the path with its move log and tests speedster and marathon as the badges describe them. Handoff.HandOffRecordAsWritten is the hand-off as endGame performs it.
- Achievements.AchievementManager.CheckAchievements: the corrected check. Achievements.AchievementManager.CheckAchievementsAsWritten is the check as the source performs it.
- Achievements.AchievementManager.CheckPlay: it takes the reading of the tests (`Rules`) as a parameter, which the source does not have.
- Controls.ControlManager.HandleCoordinateInput: the corrected handler. It checks the row against the height. Controls.ControlManager.HandleCoordinateInputAsWritten checks it against the width, as the source does.
- Storage.Authenticate: atob throwing on a stored password that is not base64 is the outcome `Undecodable`.
- Base64.Encode and Base64.DecodeEncode: btoa and atob are modelled as the base64 of RFC 4648 section 4 on byte strings. atob's whitespace skipping and unpadded input are not modelled.

The model also follows behaviour of the source that a reader might not expect:

- Item points are overwritten. moveKnight recomputes the score from the formula right after handleItem added or took an item's points, so food, horseshoe, hole and mine points never last (GameRules.ClickEffect).
- The move is made after a fatal mine. handleCellClick still calls moveKnight after a mine ended the game, and the record stored in the history shows the game before that move (GameRules.ClickEffect).
- The timer starts even when the game already ended. initGame starts it when the start cell has no move and placeKnight ended the game, and the interval keeps running (GameRules.SetUpEffect).
- The time percentile is always 0. No record endGame stores has a `totalTime`, so compareWithCommunity's time sample is all zeros, and with the reversed ranking the player is placed at index 0 (Analytics.TimePercentileZero).
- The record's `startPosition` is the knight's final cell, which is what endGame reads (GameRules.RecordOf).
- master compares the visited count with boardSize², which is the width squared, also on non-square boards.
- mostStuckPosition gives ties to the key counted last, and the analysis returns the cell rather than its key split into strings.
- authenticateProfile tells an unknown name apart from a wrong password.

## Findings

| source | as written | input that shows it | evidently intended | confidence | as-written member | corrected member |
|---|---|---|---|---|---|---|
| game.js:30-49 | reset() does not restore `regressiveTime`, so a new game inherits the countdown the last game left | a regressive game that ran out of time (countdown 0), then initGame in regressive mode: the first tick, one second in, ends the new game | reset() restores the five-minute countdown, as the constructor sets it | not executed | GameRules.RestartAfterTimeoutAsWritten | GameRules.RestartAfterTimeout |
| achievements.js:100-103 | speedster tests `gameData.totalTime`, a key the record built by endGame never has (its time is under `time`) | any game, for instance one finished in 60 s: speedster is not unlocked | unlock speedster for a game under two minutes by its recorded `time` | not executed | Achievements.SpeedsterNeverEarned | Achievements.SpeedsterByTime |
| achievements.js:130-134 | marathon counts the records of the player's history, and each finished game stores two (savePath's record and endGame's own, pathLibrary.js:29 and game.js:654) | a new player finishing a fifth game: the history holds 10 records and marathon ("play 10 games") is unlocked | count the games played | not executed | Handoff.MarathonCountAsWritten | Handoff.MarathonCount |
| controls.js:116-117 | the typed row is checked against `gameState.boardSize`, which is the board width | a board 5 wide and 8 tall with the knight on row 4, column 1: typing "a7" (row 6, column 0, a valid move) is refused as an invalid coordinate | check the row against the board height | not executed | Controls.RowCheckedAgainstWidth | Controls.CoordinateOutcomeSpec |
| pathLibrary.js:21 | savePath stores `gameData.moves`, which endGame fills with the move count (game.js:635), where a list of move records is expected | any saved game with at least one move: replayPath replays no move, the CSV export and the picture fail | store the move log (`moveHistory`) | not executed | Paths.SavedCountLosesMoves | Paths.PathLibrary.SavePath |
