/** The rules of a session of game.js, on values: the GameState object as a
    record, and what each of the functions that change it (reset, placeKnight,
    placeItems, startTimer, the timer tick, handleCellClick, handleItem,
    moveKnight, visitCell, undoMove, highlightAvailableMoves, endGame) turns
    it into. The class in module Game performs the same steps in place and is
    proved to agree with these functions; the invariant of a session and what
    the game promises are proved here. Random choices, the clock and the DOM
    are outside the model: the start cell, the item placement and the current
    time come in as parameters. */
module GameRules {
  import opened Common
  import opened Knight
  import opened Walk
  import opened Items
  import opened Records
  import opened Analytics

  /** Lives at the start of a game (game.js:19, 38). */
  const StartLives: int := 3

  /** Seconds on the regressive countdown at the start (game.js:18). */
  const RegressiveSeconds: int := 300

  /** The global GameState (game.js:2-28) together with the analytics log of
      the game (analyticsManager.currentGameData). `startTime` is Date.now()
      when the timer was started, in ms; `elapsed` the whole seconds since
      then as of the last tick; `timerRunning` says that an interval timer is
      installed; `record` is the record endGame built and handed on to the
      path library, the ranking, the history and the achievement check
      (game.js:628-657), None while the game runs. */
  datatype Session = Session(
    width: int,
    height: int,
    mode: Mode,
    knight: Option<Cell>,
    visited: set<Cell>,
    history: seq<HistoryEntry>,
    score: int,
    moves: int,
    startTime: int,
    elapsed: int,
    timerRunning: bool,
    gameOver: bool,
    items: map<Cell, ItemKind>,
    regressiveTime: int,
    lives: int,
    undos: nat,
    itemsCollected: nat,
    minesHit: nat,
    minesOnBoard: nat,
    massageActive: bool,
    path: seq<Cell>,
    record: Option<GameRecord>,
    log: Option<GameLog>)

  /** new GameState() (game.js:3-28), next to the analytics log as it is. */
  function NewSession(log: Option<GameLog>): Session {
    Session(8, 8, Free, None, {}, [], 0, 0, 0, 0, false, false, map[], RegressiveSeconds, StartLives,
            0, 0, 0, 0, false, [], None, log)
  }

  /** reset() as written (game.js:30-49). The board size, the mode, the
      knight, the timer's start and the regressive countdown keep what the
      previous game left. */
  function Reset(s: Session): Session {
    s.(visited := {}, history := [], score := 0, moves := 0, elapsed := 0, gameOver := false,
       items := map[], lives := StartLives, undos := 0, itemsCollected := 0, minesHit := 0,
       minesOnBoard := 0, massageActive := false, path := [], timerRunning := false, record := None)
  }

  /** reset() as evidently intended: the countdown also goes back to five
      minutes, as in the constructor. */
  function ResetFixed(s: Session): Session {
    Reset(s).(regressiveTime := RegressiveSeconds)
  }

  /** The counters an item can change. */
  function Counters(s: Session): Effects {
    Effects(s.score, s.lives, s.minesHit, s.regressiveTime, s.itemsCollected, s.massageActive)
  }

  function WithCounters(s: Session, e: Effects): Session {
    s.(score := e.score, lives := e.lives, minesHit := e.minesHit, regressiveTime := e.regressiveTime,
       itemsCollected := e.itemsCollected, massageActive := e.massageActive)
  }

  /** updateScore (game.js:359-371). */
  function UpdateScore(s: Session): Session {
    s.(score := Score(|s.visited|, s.elapsed, s.undos, s.mode))
  }

  /** The record endGame builds at time `now` (game.js:624-645). The time is
      measured from the analytics start time, or 0 when there is none (or it
      is 0, which the source's `||` treats as missing). */
  function RecordOf(s: Session, now: int): (r: GameRecord)
    ensures r.houses == |s.visited| && r.score == s.score && (s.moves >= 0 ==> r.moves == s.moves)
    ensures r.startPosition == s.knight && r.pathSequence == s.path && r.totalTime.None?
  {
    var time := if s.log.Some? && s.log.value.startTime != 0 then now - s.log.value.startTime else 0;
    GameRecord(s.width, s.height, s.mode, s.score, |s.visited|, time, if s.moves >= 0 then s.moves else 0,
               if s.log.Some? then s.log.value.moves else [],
               s.itemsCollected, s.knight, s.undos, s.minesHit, s.minesOnBoard, s.path, s.visited, None)
  }

  /** endGame (game.js:606-668): a no-op once the game is over; otherwise the
      game is over, the timer stopped and the record built. */
  function EndGame(s: Session, now: int): Session {
    if s.gameOver then s
    else s.(gameOver := true, timerRunning := false, record := Some(RecordOf(s, now)))
  }

  /** The cells the knight may move to now (getValidKnightMoves). */
  function ValidMoves(s: Session): seq<Cell>
    requires s.knight.Some?
  {
    ValidKnightMoves(s.knight.value, s.visited, s.width, s.height)
  }

  /** The target is a knight move away onto a free cell: exactly when it is
      in ValidMoves (ValidMovesAgree). */
  predicate CanMoveTo(s: Session, target: Cell) {
    s.knight.Some? && IsKnightStep(s.knight.value, target) && FreeCell(target, s.visited, s.width, s.height)
  }

  /** The knight stands where it has no move left: exactly when ValidMoves is
      empty (ValidMovesAgree). */
  predicate Stuck(s: Session) {
    s.knight.Some? && NoMoves(s.knight.value, s.visited, s.width, s.height)
  }

  /** The list the source computes and tests agrees with the two predicates
      the rules are phrased in. */
  lemma ValidMovesAgree(s: Session, target: Cell)
    requires s.knight.Some?
    ensures target in ValidMoves(s) <==> CanMoveTo(s, target)
    ensures ValidMoves(s) == [] <==> Stuck(s)
  {
    ValidKnightMovesAgree(s.knight.value, s.visited, s.width, s.height);
  }

  /** The end of highlightAvailableMoves (game.js:209, 227-235): with a knight
      on the board, no move left and the game still running, the position is
      logged as a dead end and the game ends. */
  function HighlightAvailableMoves(s: Session, now: int): Session {
    if Stuck(s) && !s.gameOver then EndGame(s.(log := WithStuck(s.log, s.knight.value)), now)
    else s
  }

  /** visitCell (game.js:321-356): a cell already visited is left alone;
      otherwise it joins the visited set and any item on it is removed. */
  function VisitCell(s: Session, c: Cell): Session {
    if c in s.visited then s
    else s.(visited := s.visited + {c}, items := s.items - {c})
  }

  /** handleItem (game.js:426-474): the pickup is logged, the item takes
      effect, and a mine that takes the last life ends the game. */
  function HandleItem(s: Session, kind: ItemKind, c: Cell, now: int): Session {
    var s1 := WithCounters(s.(log := WithItem(s.log, kind, c, now)), ItemEffect(Counters(s), kind, s.mode));
    if kind == Mine && s1.lives <= 0 then EndGame(s1, now) else s1
  }

  /** moveKnight (game.js:265-318): the history entry with the score and
      visited count before the move, the analytics log, the knight, the
      visited cell, the path and the move counter; then the score is
      recomputed from scratch and the stuck check runs. */
  function MoveKnight(s: Session, target: Cell, now: int): Session
    requires s.knight.Some?
  {
    HighlightAvailableMoves(UpdateScore(Advance(s, target, now)), now)
  }

  /** The first half of moveKnight (game.js:268-304): the history entry,
      the analytics log, the knight, the visited cell, the path and the move
      counter. */
  function Advance(s: Session, target: Cell, now: int): Session
    requires s.knight.Some?
  {
    var from := s.knight.value;
    var s1 := s.(history := s.history + [HistoryEntry(from, target, s.score, |s.visited|)],
                 log := WithMove(s.log, from, target, now),
                 knight := Some(target));
    var s2 := VisitCell(s1, target);
    s2.(path := s2.path + [target], moves := s2.moves + 1)
  }

  /** The item on the target, if there is one, taking effect; the walk, the
      board and the timer's start are left alone. */
  function ItemStep(s: Session, target: Cell, now: int): (r: Session)
    ensures r.knight == s.knight && r.visited == s.visited && r.history == s.history && r.path == s.path
    ensures r.items == s.items && r.moves == s.moves && r.undos == s.undos && r.minesOnBoard == s.minesOnBoard
    ensures r.width == s.width && r.height == s.height && r.mode == s.mode && r.elapsed == s.elapsed
  {
    if target in s.items then HandleItem(s, s.items[target], target, now) else s
  }

  /** handleCellClick (game.js:238-262): nothing happens once the game is
      over or when the cell is not a valid knight move; otherwise the item on
      the cell takes effect, then the knight moves there. A running game
      needs a knight on the board: the source reads its position. */
  function HandleCellClick(s: Session, target: Cell, now: int): Session
    requires s.gameOver || s.knight.Some?
  {
    if s.gameOver || !CanMoveTo(s, target) then s
    else
      MoveKnight(ItemStep(s, target, now), target, now)
  }

  /** undoMove (game.js:515-551): nothing happens without a move to undo or
      once the game is over; otherwise the last move is taken back, the undo
      counted (also in the analytics log), the target leaves the visited set
      and the path, the knight returns, the score of the move is restored and
      then recomputed with the undo penalty, and the stuck check runs. */
  function UndoMove(s: Session, now: int): Session {
    if |s.history| == 0 || s.gameOver then s
    else HighlightAvailableMoves(UpdateScore(TakeBack(s)), now)
  }

  /** The last move taken back, before the score is recomputed. */
  function TakeBack(s: Session): Session
    requires |s.history| > 0
  {
    var n := |s.history| - 1;
    var last := s.history[n];
    var s1 := s.(history := s.history[..n], undos := s.undos + 1, log := WithUndo(s.log));
    var s2 := s1.(visited := s1.visited - {last.to},
                  path := if |s1.path| > 0 then s1.path[..|s1.path| - 1] else s1.path);
    s2.(knight := Some(last.from), score := last.score, moves := s2.moves - 1)
  }

  /** startTimer (game.js:554-585): the start time is taken and an interval
      timer installed, whatever the state of the game. */
  function StartTimer(s: Session, now: int): Session {
    s.(startTime := now, timerRunning := true)
  }

  /** One firing of the interval timer at time `now` (game.js:563-583): the
      elapsed seconds are refreshed (and, in progressive mode, the score
      with them); in regressive mode the countdown drops by a second and the
      game ends when it reaches zero. Without an installed timer nothing
      happens. Date.now() is not negative, so Math.floor is Dafny's division. */
  function Tick(s: Session, now: int): Session {
    if !s.timerRunning then s
    else
      match s.mode
      case Free => s.(elapsed := (now - s.startTime) / 1000)
      case Progressive => UpdateScore(s.(elapsed := (now - s.startTime) / 1000))
      case Regressive =>
        var s1 := s.(regressiveTime := s.regressiveTime - 1);
        if s1.regressiveTime <= 0 then EndGame(s1, now) else s1
  }

  /** The timeout of activateMassageCell (game.js:497-498): the effect ends. */
  function MassageTimeout(s: Session): Session {
    s.(massageActive := false)
  }

  /** placeKnight (game.js:154-176) with the cell the random draw chose: the
      knight is put there, the start is logged, the cell visited and the stuck
      check run. */
  function PlaceKnight(s: Session, start: Cell, now: int): Session {
    HighlightAvailableMoves(VisitCell(s.(knight := Some(start), log := WithStart(s.log, start)), start), now)
  }

  /** placeItems (game.js:374-409) with the cells and kinds the random draws
      chose: each choice is set on the items map in turn and the mines among
      them are counted. */
  function PlaceItems(s: Session, choices: seq<(Cell, ItemKind)>): Session {
    s.(items := s.items + ItemsOf(choices), minesOnBoard := MinesChosen(choices))
  }

  /** The session once initGame (game.js:66-119) has cleared it with `reset`,
      taken the board size and mode, started the analytics log and placed the
      knight and the items, and started the timer. */
  function SetUp(s: Session, width: int, height: int, mode: Mode, now: int,
                 start: Cell, choices: seq<(Cell, ItemKind)>): Session
  {
    var s1 := s.(width := width, height := height, mode := mode, log := Some(NewLog(Config(width, height, mode), now)));
    StartTimer(PlaceItems(PlaceKnight(s1, start, now), choices), now)
  }

  /** initGame as written: reset() leaves the countdown alone. */
  function InitGameAsWritten(s: Session, width: int, height: int, mode: Mode, now: int,
                             start: Cell, choices: seq<(Cell, ItemKind)>): Session
  {
    SetUp(Reset(s), width, height, mode, now, start, choices)
  }

  /** initGame with the countdown restored. */
  function InitGame(s: Session, width: int, height: int, mode: Mode, now: int,
                    start: Cell, choices: seq<(Cell, ItemKind)>): Session
  {
    SetUp(ResetFixed(s), width, height, mode, now, start, choices)
  }

  // ---------------------------------------------------------------------
  // The invariant of a session set up by initGame.

  /** Where the walk began: the `from` of the first move, or the knight's
      cell before any move. */
  function Origin(s: Session): Cell
    requires s.knight.Some?
  {
    if |s.history| > 0 then s.history[0].from else s.knight.value
  }

  /** The history is a knight's walk from the origin on a non-empty board,
      and the knight, the visited set, the path and the move counter all
      follow it. */
  ghost predicate WalkOk(s: Session) {
    && s.width >= 1 && s.height >= 1 && s.knight.Some?
    && IsWalk(Origin(s), s.history, s.width, s.height)
    && s.knight.value == Position(Origin(s), s.history)
    && s.visited == VisitedOf(Origin(s), s.history)
    && s.path == Targets(s.history)
    && s.moves == |s.history|
  }

  /** Items lie on unvisited board cells; every placed mine is either still
      on the board or has been hit; each hit cost one of the three lives, and
      losing the last one ended the game. */
  ghost predicate BoardOk(s: Session) {
    && (forall c | c in s.items :: InBoard(c, s.width, s.height) && c !in s.visited)
    && s.minesOnBoard == s.minesHit + MinesIn(s.items)
    && s.lives == StartLives - s.minesHit
    && (s.lives <= 0 ==> s.gameOver)
  }

  /** The score follows the formula of updateScore, except before the first
      move, when nothing has computed it yet. */
  ghost predicate ScoreOk(s: Session) {
    || s.score == Score(|s.visited|, s.elapsed, s.undos, s.mode)
    || (s.score == 0 && s.history == [] && s.undos == 0)
  }

  /** A running game always has a move left; a finished one has its record. */
  ghost predicate StatusOk(s: Session) {
    && (!s.gameOver ==> !Stuck(s))
    && (s.gameOver <==> s.record.Some?)
  }

  /** The analytics log is started for this board and mode, knows the start
      cell, and has seen every move, undone or not, and every undo. */
  ghost predicate LogOk(s: Session)
    requires s.knight.Some?
  {
    && s.log.Some?
    && Consistent(s.log.value)
    && s.log.value.config == Config(s.width, s.height, s.mode)
    && s.log.value.startPosition == Some(Origin(s))
    && |s.log.value.moves| == s.moves + s.undos
    && s.log.value.undos == s.undos
  }

  /** A session set up by initGame and changed only by the game's own
      operations. */
  ghost predicate Inv(s: Session) {
    WalkOk(s) && BoardOk(s) && ScoreOk(s) && StatusOk(s) && LogOk(s)
  }

  // ---------------------------------------------------------------------
  // What a click does.

  /** The counters once the item on the target, if any, has taken effect. */
  function AfterItem(s: Session, target: Cell): Effects {
    if target in s.items then ItemEffect(Counters(s), s.items[target], s.mode) else Counters(s)
  }

  /** The target holds a mine. */
  predicate MineAt(s: Session, target: Cell) {
    target in s.items && s.items[target] == Mine
  }

  /** The item step on a running game: the counters follow the item's effect,
      the pickup is logged, and the game ends exactly when a mine took the
      last life, with a record of the game as it stood before the move. */
  lemma ItemStepEffect(s: Session, target: Cell, now: int)
    requires !s.gameOver
    ensures var r := ItemStep(s, target, now);
            && Counters(r) == AfterItem(s, target)
            && r.log == (if target in s.items then WithItem(s.log, s.items[target], target, now) else s.log)
            && (r.log.Some? <==> s.log.Some?)
            && (s.log.Some? ==> r.log.value.moves == s.log.value.moves && r.log.value.undos == s.log.value.undos
                                && r.log.value.startTime == s.log.value.startTime
                                && r.log.value.config == s.log.value.config
                                && r.log.value.startPosition == s.log.value.startPosition
                                && (Consistent(s.log.value) ==> Consistent(r.log.value)))
            && (r.gameOver <==> MineAt(s, target) && AfterItem(s, target).lives <= 0)
            && (r.gameOver ==> !r.timerRunning && r.record.Some? && r.record.value.houses == |s.visited|
                               && r.record.value.score == AfterItem(s, target).score
                               && (s.moves >= 0 ==> r.record.value.moves == s.moves))
            && (!r.gameOver ==> r.timerRunning == s.timerRunning && r.record == s.record)
  {
  }

  /** moveKnight onto an unvisited cell: the move joins the history with the
      score and visited count before it, the knight stands on the target,
      which is visited and loses its item, the path and move counter grow by
      one, the score is the formula's, and a running game ends exactly when
      the knight is left without a move. */
  lemma MoveKnightEffect(s: Session, target: Cell, now: int)
    requires s.knight.Some? && target !in s.visited
    ensures var r := MoveKnight(s, target, now);
            && r.history == s.history + [HistoryEntry(s.knight.value, target, s.score, |s.visited|)]
            && r.knight == Some(target)
            && r.visited == s.visited + {target}
            && r.items == s.items - {target}
            && r.path == s.path + [target]
            && r.moves == s.moves + 1
            && r.score == Score(|r.visited|, r.elapsed, r.undos, r.mode)
            && r.lives == s.lives && r.minesHit == s.minesHit && r.regressiveTime == s.regressiveTime
            && r.itemsCollected == s.itemsCollected && r.massageActive == s.massageActive
            && r.width == s.width && r.height == s.height && r.mode == s.mode && r.elapsed == s.elapsed
            && r.undos == s.undos && r.minesOnBoard == s.minesOnBoard && r.startTime == s.startTime
            && (r.gameOver <==> s.gameOver || Stuck(r))
            && (s.gameOver ==> r.record == s.record && r.timerRunning == s.timerRunning)
            && (!s.gameOver && r.gameOver ==>
                  !r.timerRunning && r.record.Some? && r.record.value.houses == |r.visited| &&
                  r.record.value.score == r.score && (s.moves >= 0 ==> r.record.value.moves == r.moves))
            && (!r.gameOver ==> r.timerRunning == s.timerRunning && r.record == s.record)
            && (s.log.Some? ==>
                  r.log.Some? && r.log.value.moves == s.log.value.moves + [MoveRecord(s.knight.value, target, now - s.log.value.startTime, |s.log.value.moves| + 1)]
                  && r.log.value.undos == s.log.value.undos
                  && r.log.value.config == s.log.value.config
                  && r.log.value.startPosition == s.log.value.startPosition
                  && (Consistent(s.log.value) ==> Consistent(r.log.value)))
  {
    MoveKnightWalk(s, target, now);
    MoveKnightStatus(s, target, now);
    MoveKnightLog(s, target, now);
  }

  /** The walk, the board and the counters after a move. */
  lemma MoveKnightWalk(s: Session, target: Cell, now: int)
    requires s.knight.Some? && target !in s.visited
    ensures var r := MoveKnight(s, target, now);
            && r.history == s.history + [HistoryEntry(s.knight.value, target, s.score, |s.visited|)]
            && r.knight == Some(target)
            && r.visited == s.visited + {target}
            && r.items == s.items - {target}
            && r.path == s.path + [target]
            && r.moves == s.moves + 1
            && r.score == Score(|r.visited|, r.elapsed, r.undos, r.mode)
            && r.lives == s.lives && r.minesHit == s.minesHit && r.regressiveTime == s.regressiveTime
            && r.itemsCollected == s.itemsCollected && r.massageActive == s.massageActive
            && r.width == s.width && r.height == s.height && r.mode == s.mode && r.elapsed == s.elapsed
            && r.undos == s.undos && r.minesOnBoard == s.minesOnBoard && r.startTime == s.startTime
  {
  }

  /** Whether the game is over after a move, and its record. */
  lemma MoveKnightStatus(s: Session, target: Cell, now: int)
    requires s.knight.Some? && target !in s.visited
    ensures var r := MoveKnight(s, target, now);
            && (r.gameOver <==> s.gameOver || Stuck(r))
            && (s.gameOver ==> r.record == s.record && r.timerRunning == s.timerRunning)
            && (!s.gameOver && r.gameOver ==>
                  !r.timerRunning && r.record.Some? && r.record.value.houses == |r.visited| &&
                  r.record.value.score == r.score && (s.moves >= 0 ==> r.record.value.moves == r.moves))
            && (!r.gameOver ==> r.timerRunning == s.timerRunning && r.record == s.record)
  {
  }

  /** The analytics log after a move gains the numbered move. */
  lemma MoveKnightLog(s: Session, target: Cell, now: int)
    requires s.knight.Some? && target !in s.visited
    ensures var r := MoveKnight(s, target, now);
            s.log.Some? ==>
              r.log.Some? && r.log.value.moves == s.log.value.moves + [MoveRecord(s.knight.value, target, now - s.log.value.startTime, |s.log.value.moves| + 1)]
              && r.log.value.undos == s.log.value.undos
              && r.log.value.config == s.log.value.config
              && r.log.value.startPosition == s.log.value.startPosition
              && (Consistent(s.log.value) ==> Consistent(r.log.value))
  {
    if s.log.Some? {
      var l := LogMove(s.log.value, s.knight.value, target, now);
      var r := MoveKnight(s, target, now);
      assert r.log == Some(l) || r.log == Some(l.(stuck := l.stuck + [target]));
      if Consistent(s.log.value) {
        LogMoveConsistent(s.log.value, s.knight.value, target, now);
        StuckKeepsConsistent(l, target);
      }
    }
  }

  /** A click on a valid move of a running game (game.js:238-262 with
      moveKnight and visitCell): the move joins the history with the score
      the item left, the knight stands on the target, which is visited and
      loses its item, and the path and move counter grow by one. The score
      is then the formula's, so whatever points the item gave or took are
      lost. The other counters are the item's. The game is over exactly when
      the item was a mine that took the last life, or when the knight is left
      without a move; after the mine the move is still made, but the record
      saved at the mine holds the game before it. */
  lemma ClickEffect(s: Session, target: Cell, now: int)
    requires s.knight.Some? && !s.gameOver && CanMoveTo(s, target)
    ensures var r := HandleCellClick(s, target, now);
            var e := AfterItem(s, target);
            && r.history == s.history + [HistoryEntry(s.knight.value, target, e.score, |s.visited|)]
            && r.knight == Some(target)
            && r.visited == s.visited + {target}
            && r.items == s.items - {target}
            && r.path == s.path + [target]
            && r.moves == s.moves + 1
            && r.score == Score(|r.visited|, r.elapsed, r.undos, r.mode)
            && r.lives == e.lives && r.minesHit == e.minesHit && r.regressiveTime == e.regressiveTime
            && r.itemsCollected == e.itemsCollected && r.massageActive == e.massageActive
            && r.width == s.width && r.height == s.height && r.mode == s.mode && r.elapsed == s.elapsed
            && r.undos == s.undos && r.minesOnBoard == s.minesOnBoard && r.startTime == s.startTime
            && (r.gameOver <==> (MineAt(s, target) && e.lives <= 0) || Stuck(r))
            && (r.gameOver ==> r.record.Some? && !r.timerRunning)
            && (!r.gameOver ==> r.record == s.record && r.timerRunning == s.timerRunning)
            && (MineAt(s, target) && e.lives <= 0 ==>
                  r.record.value.houses == |s.visited| && r.record.value.score == e.score &&
                  (s.moves >= 0 ==> r.record.value.moves == s.moves))
            && (!(MineAt(s, target) && e.lives <= 0) && r.gameOver ==>
                  r.record.value.houses == |r.visited| && r.record.value.score == r.score &&
                  (s.moves >= 0 ==> r.record.value.moves == r.moves))
            && (s.log.Some? ==>
                  r.log.Some? && r.log.value.moves == s.log.value.moves + [MoveRecord(s.knight.value, target, now - s.log.value.startTime, |s.log.value.moves| + 1)]
                  && r.log.value.undos == s.log.value.undos
                  && r.log.value.config == s.log.value.config
                  && r.log.value.startPosition == s.log.value.startPosition
                  && (Consistent(s.log.value) ==> Consistent(r.log.value)))
  {
    ItemStepEffect(s, target, now);
    MoveKnightEffect(ItemStep(s, target, now), target, now);
  }

  /** A click keeps the invariant of a session. */
  lemma ClickKeepsInv(s: Session, target: Cell, now: int)
    requires Inv(s)
    ensures Inv(HandleCellClick(s, target, now))
  {
    if !s.gameOver && CanMoveTo(s, target) {
      ClickEffect(s, target, now);
      var r := HandleCellClick(s, target, now);
      var start := Origin(s);
      VisitedCount(start, s.history, s.width, s.height);
      ExtendWalk(start, s.history, s.width, s.height,
                 HistoryEntry(s.knight.value, target, AfterItem(s, target).score, |s.visited|));
      assert Origin(r) == start;
      assert WalkOk(r);
      MinesInRemove(s.items, target);
      if target in s.items {
        ItemEffectSpec(Counters(s), s.items[target], s.mode);
      }
      assert BoardOk(r);
    }
  }

  /** A click changes the session exactly when the game is running and the
      target is in the list of valid moves (game.js:240, 252). */
  lemma ClickChangesIffValid(s: Session, target: Cell, now: int)
    requires s.knight.Some?
    ensures HandleCellClick(s, target, now) != s <==> !s.gameOver && target in ValidMoves(s)
  {
    ValidMovesAgree(s, target);
    if !s.gameOver && CanMoveTo(s, target) {
      ClickEffect(s, target, now);
      assert |HandleCellClick(s, target, now).history| == |s.history| + 1;
    }
  }

  // ---------------------------------------------------------------------
  // What an undo does.

  /** A knight move onto a free cell leaves the knight a move. */
  lemma NotStuck(s: Session, target: Cell)
    requires CanMoveTo(s, target)
    ensures !Stuck(s)
  {
    var k := StepIndex(s.knight.value, target);
    assert Target(s.knight.value, k) == target;
  }

  /** undoMove on a running game with a move to undo: the last move leaves
      the history, its target the visited set and the path, the knight
      returns to its `from` cell, the move counter drops and the undo counter
      grows by one, the score is the formula's with the undo penalty, and the
      game goes on, since the cell just left is free again. The items and the
      other counters stay as they are; the analytics log counts the undo and
      keeps the move. */
  lemma UndoEffect(s: Session, now: int)
    requires Inv(s) && |s.history| > 0 && !s.gameOver
    ensures var r := UndoMove(s, now);
            var n := |s.history| - 1;
            && r.history == s.history[..n]
            && r.knight == Some(s.history[n].from)
            && r.visited == s.visited - {s.history[n].to}
            && r.path == s.path[..n]
            && r.moves == s.moves - 1
            && r.undos == s.undos + 1
            && r.score == Score(|r.visited|, r.elapsed, r.undos, r.mode)
            && !r.gameOver && r.record == s.record && r.timerRunning == s.timerRunning
            && r.items == s.items && r.lives == s.lives && r.minesHit == s.minesHit
            && r.regressiveTime == s.regressiveTime && r.itemsCollected == s.itemsCollected
            && r.massageActive == s.massageActive && r.minesOnBoard == s.minesOnBoard
            && r.width == s.width && r.height == s.height && r.mode == s.mode
            && r.elapsed == s.elapsed && r.startTime == s.startTime
            && r.log == WithUndo(s.log)
  {
    var n := |s.history| - 1;
    var last := s.history[n];
    RetractWalk(Origin(s), s.history, s.width, s.height);
    LastIsNew(Origin(s), s.history, s.width, s.height);
    var back := s.(knight := Some(last.from), visited := s.visited - {last.to});
    NotStuck(back, last.to);
  }

  /** After an undo the walk is the history without its last move, from the
      same origin. */
  lemma UndoKeepsWalk(s: Session, now: int)
    requires Inv(s) && |s.history| > 0 && !s.gameOver
    ensures WalkOk(UndoMove(s, now)) && Origin(UndoMove(s, now)) == Origin(s)
  {
    UndoEffect(s, now);
    var r := UndoMove(s, now);
    RetractWalk(Origin(s), s.history, s.width, s.height);
    if |s.history| > 1 {
      assert r.history[0] == s.history[0];
    }
  }

  /** An undo keeps the invariant of a session. */
  lemma UndoKeepsInv(s: Session, now: int)
    requires Inv(s)
    ensures Inv(UndoMove(s, now))
  {
    if |s.history| > 0 && !s.gameOver {
      UndoEffect(s, now);
      UndoKeepsWalk(s, now);
      SameMovesConsistent(s.log.value, WithUndo(s.log).value);
    }
  }

  /** Undoing a click that left the game running gives back the walk as it
      was: the same history, knight, visited cells, path and move count. What
      stays is one more undo on the counter and in the log, the item the
      click took off the board, and its effect on the counters. */
  lemma UndoAfterClick(s: Session, target: Cell, now1: int, now2: int)
    requires Inv(s) && !s.gameOver && CanMoveTo(s, target)
    requires !HandleCellClick(s, target, now1).gameOver
    ensures var u := UndoMove(HandleCellClick(s, target, now1), now2);
            && u.history == s.history && u.knight == s.knight && u.visited == s.visited
            && u.path == s.path && u.moves == s.moves
            && u.undos == s.undos + 1 && u.items == s.items - {target}
            && u.score == Score(|s.visited|, s.elapsed, s.undos + 1, s.mode)
            && u.lives == AfterItem(s, target).lives
            && !u.gameOver
  {
    ClickEffect(s, target, now1);
    ClickKeepsInv(s, target, now1);
    var c := HandleCellClick(s, target, now1);
    UndoEffect(c, now2);
    assert c.history[..|s.history|] == s.history;
    assert c.path[..|s.path|] == s.path;
    assert c.visited - {target} == s.visited;
  }

  // ---------------------------------------------------------------------
  // The timer.

  /** One tick of a running timer: in regressive mode the countdown drops by
      one second and a running game ends exactly when it reaches zero; in the
      other modes the game neither ends nor changes beyond the elapsed time
      and, in progressive mode, the score recomputed with it. */
  lemma TickEffect(s: Session, now: int)
    requires s.timerRunning
    ensures var r := Tick(s, now);
            && (s.mode == Regressive ==>
                  r.regressiveTime == s.regressiveTime - 1 &&
                  (!s.gameOver ==> (r.gameOver <==> s.regressiveTime <= 1)))
            && (s.mode != Regressive ==>
                  r.gameOver == s.gameOver && r.elapsed == (now - s.startTime) / 1000 &&
                  r.(elapsed := s.elapsed, score := s.score) == s)
            && (s.mode == Progressive ==> r.score == Score(|s.visited|, r.elapsed, s.undos, s.mode))
  {
  }

  /** The invariant reads the walk, the board, the undo count and the log
      only through the fields kept here: a step that keeps them, keeps the
      score on its formula, ends a game only with a record and never
      restarts one, keeps the invariant. */
  lemma InvKept(s: Session, r: Session)
    requires Inv(s)
    requires r.width == s.width && r.height == s.height && r.mode == s.mode && r.knight == s.knight
    requires r.visited == s.visited && r.history == s.history && r.path == s.path && r.moves == s.moves
    requires r.items == s.items && r.lives == s.lives && r.minesHit == s.minesHit
    requires r.minesOnBoard == s.minesOnBoard && r.undos == s.undos && r.log == s.log
    requires ScoreOk(r) && (r.gameOver <==> r.record.Some?) && (s.gameOver ==> r.gameOver)
    ensures Inv(r)
  {
  }

  /** A tick keeps the invariant of a session: outside progressive mode the
      clock does not enter the score, and a countdown that ends the game
      leaves its record. */
  lemma TickKeepsInv(s: Session, now: int)
    requires Inv(s)
    ensures Inv(Tick(s, now))
  {
    if s.timerRunning {
      if s.mode == Regressive {
        CountdownKeepsInv(s, now);
      } else {
        ClockKeepsInv(s, now);
      }
    }
  }

  lemma ClockKeepsInv(s: Session, now: int)
    requires Inv(s) && s.timerRunning && s.mode != Regressive
    ensures Inv(Tick(s, now))
  {
    var elapsed := (now - s.startTime) / 1000;
    if s.mode == Free {
      ScoreIgnoresClock(|s.visited|, s.elapsed, elapsed, s.undos, s.mode);
      InvKept(s, s.(elapsed := elapsed));
    } else {
      InvKept(s, UpdateScore(s.(elapsed := elapsed)));
    }
  }

  lemma CountdownKeepsInv(s: Session, now: int)
    requires Inv(s) && s.timerRunning && s.mode == Regressive
    ensures Inv(Tick(s, now))
  {
    var s1 := s.(regressiveTime := s.regressiveTime - 1);
    if s1.regressiveTime <= 0 {
      InvKept(s, EndGame(s1, now));
    } else {
      InvKept(s, s1);
    }
  }

  /** The timeout of a massage effect changes nothing the invariant reads. */
  lemma MassageTimeoutKeepsInv(s: Session)
    requires Inv(s)
    ensures Inv(MassageTimeout(s)) && !MassageTimeout(s).massageActive
  {
  }

  // ---------------------------------------------------------------------
  // Setting a game up.

  /** What reset leaves behind: no walk, no items, the counters at their
      start values, no timer and no record. */
  ghost predicate Cleared(s: Session) {
    && s.visited == {} && s.history == [] && s.path == [] && s.items == map[]
    && s.score == 0 && s.moves == 0 && s.elapsed == 0 && !s.gameOver && s.lives == StartLives
    && s.undos == 0 && s.itemsCollected == 0 && s.minesHit == 0 && s.minesOnBoard == 0
    && !s.massageActive && !s.timerRunning && s.record == None
  }

  /** Both versions of reset clear the session. */
  lemma ResetClears(s: Session)
    ensures Cleared(Reset(s)) && Reset(s).regressiveTime == s.regressiveTime
    ensures Cleared(ResetFixed(s)) && ResetFixed(s).regressiveTime == RegressiveSeconds
  {
  }

  /** A game set up on a cleared session: the knight stands on the start
      cell, which is the only visited one; the board holds exactly the drawn
      items; the timer runs from `now`; the log is fresh and knows the start;
      and the game is already over exactly when the start cell has no knight
      move onto the board. The countdown is whatever the session held. */
  lemma SetUpEffect(s: Session, width: int, height: int, mode: Mode, now: int,
                    start: Cell, choices: seq<(Cell, ItemKind)>)
    requires Cleared(s) && InBoard(start, width, height)
    ensures var r := SetUp(s, width, height, mode, now, start, choices);
            && r.width == width && r.height == height && r.mode == mode
            && r.knight == Some(start) && r.visited == {start} && r.history == [] && r.path == []
            && r.score == 0 && r.moves == 0 && r.elapsed == 0 && r.undos == 0
            && r.lives == StartLives && r.minesHit == 0 && r.itemsCollected == 0 && !r.massageActive
            && r.items == ItemsOf(choices) && r.minesOnBoard == MinesChosen(choices)
            && r.timerRunning && r.startTime == now && r.regressiveTime == s.regressiveTime
            && (r.gameOver <==> NoMoves(start, {start}, width, height))
            && (r.gameOver <==> r.record.Some?)
            && r.log.Some? && r.log.value.startTime == now && r.log.value.moves == []
            && r.log.value.undos == 0 && r.log.value.startPosition == Some(start)
            && r.log.value.config == Config(width, height, mode) && Consistent(r.log.value)
  {
    assert map[] + ItemsOf(choices) == ItemsOf(choices);
    var l := NewLog(Config(width, height, mode), now);
    NewLogConsistent(Config(width, height, mode), now);
    SameMovesConsistent(l, l.(startPosition := Some(start)));
    SameMovesConsistent(l, l.(startPosition := Some(start), stuck := l.stuck + [start]));
  }

  /** A game set up with a valid item placement satisfies the invariant, and
      its board holds 15% of the cells, rounded down, as items. */
  lemma SetUpInv(s: Session, width: int, height: int, mode: Mode, now: int,
                 start: Cell, choices: seq<(Cell, ItemKind)>)
    requires Cleared(s) && InBoard(start, width, height)
    requires ValidPlacement(choices, start, width, height)
    ensures Inv(SetUp(s, width, height, mode, now, start, choices))
    ensures |SetUp(s, width, height, mode, now, start, choices).items| == ItemCount(width * height)
  {
    var r := SetUp(s, width, height, mode, now, start, choices);
    SetUpEffect(s, width, height, mode, now, start, choices);
    ItemsOfSpec(choices);
    assert VisitedOf(start, []) == {start};
    assert WalkOk(r);
    forall c | c in r.items ensures InBoard(c, width, height) && c !in r.visited {
      var i :| 0 <= i < |choices| && choices[i].0 == c;
    }
    assert BoardOk(r);
  }

  /** initGame, in both versions, starts a game that satisfies the invariant
      on the drawn board; the fixed version starts the countdown at five
      minutes, the version as written at whatever the last game left. */
  lemma InitGameSpec(s: Session, width: int, height: int, mode: Mode, now: int,
                     start: Cell, choices: seq<(Cell, ItemKind)>)
    requires InBoard(start, width, height) && ValidPlacement(choices, start, width, height)
    ensures var r := InitGame(s, width, height, mode, now, start, choices);
            Inv(r) && r.regressiveTime == RegressiveSeconds && r.knight == Some(start)
            && r.visited == {start} && |r.items| == ItemCount(width * height) && r.lives == StartLives
    ensures var r := InitGameAsWritten(s, width, height, mode, now, start, choices);
            Inv(r) && r.regressiveTime == s.regressiveTime && r.knight == Some(start)
            && r.visited == {start} && |r.items| == ItemCount(width * height) && r.lives == StartLives
  {
    ResetClears(s);
    SetUpEffect(ResetFixed(s), width, height, mode, now, start, choices);
    SetUpInv(ResetFixed(s), width, height, mode, now, start, choices);
    SetUpEffect(Reset(s), width, height, mode, now, start, choices);
    SetUpInv(Reset(s), width, height, mode, now, start, choices);
  }

  /** As written, a regressive game whose countdown ran out leaves 0 s (or
      less) behind, and reset does not restore it: the first tick of the next
      regressive game, one second after it starts, ends that game. */
  lemma RestartAfterTimeoutAsWritten(s: Session, width: int, height: int, now: int,
                                     start: Cell, choices: seq<(Cell, ItemKind)>)
    requires s.timerRunning && !s.gameOver && s.mode == Regressive && s.regressiveTime == 1
    requires InBoard(start, width, height)
    ensures Tick(s, now).gameOver && Tick(s, now).regressiveTime == 0
    ensures var r := InitGameAsWritten(Tick(s, now), width, height, Regressive, now, start, choices);
            Tick(r, now + 1000).gameOver
  {
    ResetClears(Tick(s, now));
    SetUpEffect(Reset(Tick(s, now)), width, height, Regressive, now, start, choices);
  }

  /** With the countdown restored, the first tick of a regressive game that
      did not start on a dead end leaves it running with 299 s to go, whatever
      the previous game left behind. */
  lemma RestartAfterTimeout(s: Session, width: int, height: int, now: int,
                            start: Cell, choices: seq<(Cell, ItemKind)>)
    requires InBoard(start, width, height) && !NoMoves(start, {start}, width, height)
    ensures var r := InitGame(s, width, height, Regressive, now, start, choices);
            !Tick(r, now + 1000).gameOver && Tick(r, now + 1000).regressiveTime == RegressiveSeconds - 1
  {
    ResetClears(s);
    SetUpEffect(ResetFixed(s), width, height, Regressive, now, start, choices);
  }
}
