/** The global GameState of game.js as an object, and the functions of
    game.js that change it in place. Each method performs the source's steps
    on the fields and is proved to leave the session exactly as the function
    of the same name in module GameRules describes, where the invariant and
    the game's promises are proved. The analytics recorder is the object the
    steps report to. */
module Game {
  import opened Common
  import opened Knight
  import opened Walk
  import opened Items
  import opened Records
  import opened Analytics
  import GameRules

  class GameSession {
    var width: int
    var height: int
    var mode: Mode
    var knight: Option<Cell>
    var visited: set<Cell>
    var history: seq<HistoryEntry>
    var score: int
    var moves: int
    /** Date.now() when the timer was started, in ms. */
    var startTime: int
    /** Whole seconds since startTime, as of the last tick. */
    var elapsed: int
    /** An interval timer is installed. */
    var timerRunning: bool
    var gameOver: bool
    var items: map<Cell, ItemKind>
    var regressiveTime: int
    var lives: int
    var undos: nat
    var itemsCollected: nat
    var minesHit: nat
    var minesOnBoard: nat
    var massageActive: bool
    var path: seq<Cell>
    /** The record endGame built and handed on (game.js:628-657). */
    var record: Option<GameRecord>
    const analytics: AnalyticsManager

    /** The session as a value, with the analytics log beside it. */
    function State(): GameRules.Session
      reads this, analytics
    {
      GameRules.Session(width, height, mode, knight, visited, history, score, moves, startTime,
                        elapsed, timerRunning, gameOver, items, regressiveTime, lives, undos,
                        itemsCollected, minesHit, minesOnBoard, massageActive, path, record,
                        analytics.current)
    }

    /** A session set up by initGame and changed only by the game's own
        operations. */
    ghost predicate Valid()
      reads this, analytics
    {
      GameRules.Inv(State())
    }

    /** new GameState() (game.js:3-28). */
    constructor(analytics: AnalyticsManager)
      ensures this.analytics == analytics
      ensures State() == GameRules.NewSession(analytics.current)
    {
      this.analytics := analytics;
      width, height, mode, knight := 8, 8, Free, None;
      visited, history, path, items := {}, [], [], map[];
      score, moves, startTime, elapsed := 0, 0, 0, 0;
      timerRunning, gameOver := false, false;
      regressiveTime, lives := GameRules.RegressiveSeconds, GameRules.StartLives;
      undos, itemsCollected, minesHit, minesOnBoard := 0, 0, 0, 0;
      massageActive, record := false, None;
    }

    /** reset() as written (game.js:30-49). */
    method ResetAsWritten()
      modifies this
      ensures State() == GameRules.Reset(old(State()))
    {
      Clear();
    }

    /** reset() with the countdown restored. */
    method Reset()
      modifies this
      ensures State() == GameRules.ResetFixed(old(State()))
    {
      ResetAsWritten();
      SetCountdown(GameRules.RegressiveSeconds);
    }

    /** The assignments of reset(), which also stops the interval timer. */
    method Clear()
      modifies this`visited, this`history, this`path, this`moves
      modifies this`score, this`elapsed, this`lives, this`undos
      modifies this`itemsCollected, this`minesHit, this`minesOnBoard, this`massageActive
      modifies this`items, this`gameOver, this`timerRunning, this`record
      ensures visited == {} && history == [] && path == [] && moves == 0
      ensures score == 0 && elapsed == 0 && lives == GameRules.StartLives && undos == 0
      ensures itemsCollected == 0 && minesHit == 0 && minesOnBoard == 0 && !massageActive
      ensures items == map[] && !gameOver && !timerRunning && record == None
    {
      ClearWalk();
      ClearScore();
      ClearCounters();
      ClearStatus();
    }

    method ClearWalk()
      modifies this`visited, this`history, this`path, this`moves
      ensures visited == {} && history == [] && path == [] && moves == 0
    {
      visited, history, path, moves := {}, [], [], 0;
    }

    method ClearScore()
      modifies this`score, this`elapsed, this`lives, this`undos
      ensures score == 0 && elapsed == 0 && lives == GameRules.StartLives && undos == 0
    {
      score, elapsed, lives, undos := 0, 0, GameRules.StartLives, 0;
    }

    method ClearCounters()
      modifies this`itemsCollected, this`minesHit, this`minesOnBoard, this`massageActive
      ensures itemsCollected == 0 && minesHit == 0 && minesOnBoard == 0 && !massageActive
    {
      itemsCollected, minesHit, minesOnBoard, massageActive := 0, 0, 0, false;
    }

    method ClearStatus()
      modifies this`items, this`gameOver, this`timerRunning, this`record
      ensures items == map[] && !gameOver && !timerRunning && record == None
    {
      items, gameOver, timerRunning, record := map[], false, false, None;
    }

    method SetCountdown(t: int)
      modifies this
      ensures State() == old(State()).(regressiveTime := t)
    {
      regressiveTime := t;
    }

    /** updateScore (game.js:359-371): ten points per visited cell, in
        progressive mode a bonus for the seconds under 1000, five points off
        per undo, never below zero. */
    method UpdateScore()
      modifies this
      ensures score == Score(|visited|, elapsed, undos, mode) && score >= 0
      ensures State() == GameRules.UpdateScore(old(State()))
    {
      var speedBonus := if mode == Progressive then Max(0, 1000 - elapsed) else 0;
      score := Max(0, |visited| * 10 + speedBonus - undos * 5);
    }

    /** endGame (game.js:606-668), up to the hand-off of its record: a no-op
        once the game is over. */
    method EndGame(now: int)
      modifies this
      ensures State() == GameRules.EndGame(old(State()), now)
    {
      if gameOver {
        return;
      }
      var r := GameRules.RecordOf(State(), now);
      Finish(r);
    }

    /** The game is marked over, its interval cleared and its record kept. */
    method Finish(r: GameRecord)
      modifies this`gameOver, this`timerRunning, this`record
      ensures gameOver && !timerRunning && record == Some(r)
    {
      gameOver, timerRunning, record := true, false, Some(r);
    }

    /** highlightAvailableMoves (game.js:201-236), without the highlighting:
        with no move left in a running game the position is logged as a dead
        end and the game ends. */
    method HighlightAvailableMoves(now: int)
      requires analytics.Valid()
      modifies this, analytics
      ensures State() == GameRules.HighlightAvailableMoves(old(State()), now)
      ensures analytics.Valid()
    {
      if knight.None? {
        return;
      }
      var validMoves := ValidKnightMoves(knight.value, visited, width, height);
      ValidKnightMovesAgree(knight.value, visited, width, height);
      if |validMoves| == 0 && !gameOver {
        analytics.RecordStuckPosition(knight.value);
        EndGame(now);
      }
    }

    /** visitCell (game.js:321-356), without the cell decoration: a visited
        cell is left alone; a new one joins the visited set and loses its
        item. */
    method VisitCell(c: Cell)
      modifies this
      ensures old(c in visited) ==> visited == old(visited) && items == old(items)
      ensures old(c !in visited) ==> visited == old(visited) + {c} && items == old(items) - {c}
      ensures State() == GameRules.VisitCell(old(State()), c)
    {
      if c in visited {
        return;
      }
      visited := visited + {c};
      if c in items {
        items := items - {c};
      }
    }

    /** handleItem (game.js:426-474): the pickup is logged, the switch on the
        kind changes the counters, and a mine that takes the last life ends
        the game. */
    method HandleItem(kind: ItemKind, c: Cell, now: int)
      requires analytics.Valid()
      modifies this, analytics
      ensures State() == GameRules.HandleItem(old(State()), kind, c, now)
      ensures analytics.Valid()
    {
      analytics.RecordItemInteraction(kind, c, now);
      ApplyItem(kind);
      if kind == Mine && lives <= 0 {
        EndGame(now);
      }
    }

    method ApplyItem(kind: ItemKind)
      modifies this
      ensures State() == GameRules.WithCounters(old(State()), ItemEffect(GameRules.Counters(old(State())), kind, mode))
    {
      Switch(kind);
    }

    /** The counters of the session. */
    function Counters(): Effects
      reads this`score, this`lives, this`minesHit, this`regressiveTime, this`itemsCollected, this`massageActive
    {
      Effects(score, lives, minesHit, regressiveTime, itemsCollected, massageActive)
    }

    /** The switch of handleItem (game.js:429-471), up to its endGame. */
    method Switch(kind: ItemKind)
      modifies this`score, this`lives, this`minesHit, this`regressiveTime, this`itemsCollected, this`massageActive
      ensures Counters() == ItemEffect(old(Counters()), kind, mode)
    {
      itemsCollected := itemsCollected + 1;
      match kind
      case Food =>
        score := score + 50;
      case Clock =>
        if mode == Regressive {
          regressiveTime := regressiveTime + 30;
        }
      case Horseshoe =>
        score := score + 100;
      case Sand =>
        if mode == Regressive {
          regressiveTime := regressiveTime - 10;
        }
      case Hole =>
        score := score - 20;
      case Mine =>
        score := score - 100;
        minesHit := minesHit + 1;
        lives := lives - 1;
        if mode == Regressive {
          regressiveTime := regressiveTime - 20;
        }
      case Massage =>
        massageActive := true;
    }

    /** moveKnight (game.js:265-318), without the DOM and the sounds. */
    method MoveKnight(target: Cell, now: int)
      requires knight.Some? && analytics.Valid()
      modifies this, analytics
      ensures State() == GameRules.MoveKnight(old(State()), target, now)
      ensures analytics.Valid()
    {
      Advance(target, now);
      UpdateScore();
      HighlightAvailableMoves(now);
    }

    /** The first half of moveKnight: history, log, knight, visited cell, path. */
    method Advance(target: Cell, now: int)
      requires knight.Some? && analytics.Valid()
      modifies this, analytics
      ensures State() == GameRules.Advance(old(State()), target, now)
      ensures analytics.Valid()
    {
      PushMove(knight.value, target, now);
      VisitCell(target);
      ExtendPath(target);
    }

    /** The move is saved in the history with the score and the visited
        count before it, logged, and the knight put on the target. */
    method PushMove(from: Cell, target: Cell, now: int)
      requires analytics.Valid()
      modifies this, analytics
      ensures State() == old(State()).(history := old(history) + [HistoryEntry(from, target, old(score), old(|visited|))],
                                       log := WithMove(old(analytics.current), from, target, now),
                                       knight := Some(target))
      ensures analytics.Valid()
    {
      history := history + [HistoryEntry(from, target, score, |visited|)];
      analytics.RecordMove(from, target, now);
      knight := Some(target);
    }

    method ExtendPath(target: Cell)
      modifies this
      ensures State() == old(State()).(path := old(path) + [target], moves := old(moves) + 1)
    {
      path := path + [target];
      moves := moves + 1;
    }

    /** handleCellClick (game.js:238-262): ignored once the game is over or
        off the valid moves; otherwise the item on the target takes effect
        and the knight moves there. */
    method HandleCellClick(target: Cell, now: int)
      requires (gameOver || knight.Some?) && analytics.Valid()
      modifies this, analytics
      ensures State() == GameRules.HandleCellClick(old(State()), target, now)
      ensures old(Valid()) ==> Valid()
      ensures analytics.Valid()
    {
      if Valid() {
        GameRules.ClickKeepsInv(State(), target, now);
      }
      if gameOver {
        return;
      }
      var validMoves := ValidKnightMoves(knight.value, visited, width, height);
      GameRules.ValidMovesAgree(State(), target);
      if target !in validMoves {
        return;
      }
      if target in items {
        HandleItem(items[target], target, now);
      }
      MoveKnight(target, now);
    }

    /** undoMove (game.js:515-551), without the DOM. */
    method UndoMove(now: int)
      requires analytics.Valid()
      modifies this, analytics
      ensures State() == GameRules.UndoMove(old(State()), now)
      ensures old(Valid()) ==> Valid()
      ensures analytics.Valid()
    {
      if Valid() {
        GameRules.UndoKeepsInv(State(), now);
      }
      if |history| == 0 || gameOver {
        return;
      }
      TakeBack(now);
    }

    /** The steps of undoMove once there is a move to undo in a running
        game. */
    method TakeBack(now: int)
      requires |history| > 0 && !gameOver && analytics.Valid()
      modifies this, analytics
      ensures State() == GameRules.UndoMove(old(State()), now)
      ensures analytics.Valid()
    {
      ghost var s := State();
      var lastMove := history[|history| - 1];
      PopMove();
      RetractCell(lastMove.to);
      RestoreMove(lastMove);
      assert State() == GameRules.TakeBack(s);
      UpdateScore();
      HighlightAvailableMoves(now);
    }

    /** The last move leaves the history and the undo is counted, also in
        the analytics log. */
    method PopMove()
      requires |history| > 0 && analytics.Valid()
      modifies this, analytics
      ensures State() == old(State()).(history := old(history)[..|old(history)| - 1], undos := old(undos) + 1,
                                       log := WithUndo(old(analytics.current)))
      ensures analytics.Valid()
    {
      history := history[..|history| - 1];
      undos := undos + 1;
      analytics.RecordUndo();
    }

    /** The undone target leaves the visited set and the path. */
    method RetractCell(c: Cell)
      modifies this
      ensures State() == old(State()).(visited := old(visited) - {c},
                                       path := if |old(path)| > 0 then old(path)[..|old(path)| - 1] else old(path))
    {
      visited := visited - {c};
      if |path| > 0 {
        path := path[..|path| - 1];
      }
    }

    /** The knight goes back to the move's start, the score before the move
        is restored and the move counter drops. */
    method RestoreMove(e: HistoryEntry)
      modifies this
      ensures State() == old(State()).(knight := Some(e.from), score := e.score, moves := old(moves) - 1)
    {
      knight, score := Some(e.from), e.score;
      moves := moves - 1;
    }

    /** startTimer (game.js:554-585): the interval is installed; its
        callback is Tick. */
    method StartTimer(now: int)
      modifies this
      ensures State() == GameRules.StartTimer(old(State()), now)
    {
      startTime := now;
      timerRunning := true;
    }

    /** One firing of the interval callback of startTimer at time `now`
        (game.js:563-583). */
    method Tick(now: int)
      modifies this
      ensures State() == GameRules.Tick(old(State()), now)
      ensures old(Valid()) ==> Valid()
    {
      if Valid() {
        GameRules.TickKeepsInv(State(), now);
      }
      if !timerRunning {
        return;
      }
      match mode
      case Free =>
        SetElapsed((now - startTime) / 1000);
      case Progressive =>
        SetElapsed((now - startTime) / 1000);
        UpdateScore();
      case Regressive =>
        SetCountdown(regressiveTime - 1);
        if regressiveTime <= 0 {
          EndGame(now);
        }
    }

    method SetElapsed(t: int)
      modifies this
      ensures State() == old(State()).(elapsed := t)
    {
      elapsed := t;
    }

    /** The timeout set by activateMassageCell (game.js:497-498). */
    method MassageTimeout()
      modifies this
      ensures State() == GameRules.MassageTimeout(old(State()))
      ensures old(Valid()) ==> Valid()
    {
      if Valid() {
        GameRules.MassageTimeoutKeepsInv(State());
      }
      massageActive := false;
    }

    method SetKnight(c: Cell)
      modifies this
      ensures State() == old(State()).(knight := Some(c))
    {
      knight := Some(c);
    }

    /** placeKnight (game.js:154-176) with the drawn cell `start`. */
    method PlaceKnight(start: Cell, now: int)
      requires analytics.Valid()
      modifies this, analytics
      ensures State() == GameRules.PlaceKnight(old(State()), start, now)
      ensures analytics.Valid()
    {
      SetKnight(start);
      analytics.RecordStartPosition(start);
      VisitCell(start);
      HighlightAvailableMoves(now);
    }

    /** placeItems (game.js:374-410) with the drawn cells and kinds. */
    method PlaceItems(choices: seq<(Cell, ItemKind)>)
      modifies this
      ensures State() == GameRules.PlaceItems(old(State()), choices)
    {
      PutItems(choices);
    }

    /** The loop of placeItems: each choice is put on the board in turn and
        the mines among them are counted. */
    method PutItems(choices: seq<(Cell, ItemKind)>)
      modifies this`items, this`minesOnBoard
      ensures items == old(items) + ItemsOf(choices) && minesOnBoard == MinesChosen(choices)
    {
      minesOnBoard := 0;
      var i := 0;
      while i < |choices|
        invariant 0 <= i <= |choices|
        invariant items == old(items) + ItemsOf(choices[..i])
        invariant minesOnBoard == MinesChosen(choices[..i])
      {
        var (cell, kind) := choices[i];
        assert choices[..i + 1][..i] == choices[..i];
        items := items[cell := kind];
        if kind == Mine {
          minesOnBoard := minesOnBoard + 1;
        }
        i := i + 1;
      }
      assert choices[..i] == choices;
    }

    /** The steps of initGame (game.js:66-95) after reset: the board size and
        mode are taken, the analytics log started, the knight and the items
        placed and the timer started. */
    method SetUp(width: int, height: int, mode: Mode, now: int, start: Cell, choices: seq<(Cell, ItemKind)>)
      requires analytics.Valid()
      modifies this, analytics
      ensures State() == GameRules.SetUp(old(State()), width, height, mode, now, start, choices)
      ensures analytics.Valid()
    {
      SetBoard(width, height, mode);
      analytics.StartGameAnalysis(Config(width, height, mode), now);
      PlaceKnight(start, now);
      PlaceItems(choices);
      StartTimer(now);
    }

    method SetBoard(width: int, height: int, mode: Mode)
      modifies this
      ensures State() == old(State()).(width := width, height := height, mode := mode)
    {
      this.width, this.height, this.mode := width, height, mode;
    }

    /** initGame as written (game.js:66-95), with the drawn start cell and
        items; the size inputs are given as numbers. */
    method InitGameAsWritten(width: int, height: int, mode: Mode, now: int,
                             start: Cell, choices: seq<(Cell, ItemKind)>)
      requires analytics.Valid()
      modifies this, analytics
      ensures State() == GameRules.InitGameAsWritten(old(State()), width, height, mode, now, start, choices)
      ensures analytics.Valid()
    {
      ResetAsWritten();
      SetUp(width, height, mode, now, start, choices);
    }

    /** initGame with the countdown restored by reset. On a valid draw the
        new game satisfies the invariant. */
    method InitGame(width: int, height: int, mode: Mode, now: int,
                    start: Cell, choices: seq<(Cell, ItemKind)>)
      requires analytics.Valid()
      requires InBoard(start, width, height) && ValidPlacement(choices, start, width, height)
      modifies this, analytics
      ensures State() == GameRules.InitGame(old(State()), width, height, mode, now, start, choices)
      ensures Valid() && regressiveTime == GameRules.RegressiveSeconds
      ensures knight == Some(start) && visited == {start} && |items| == ItemCount(width * height)
    {
      Reset();
      SetUp(width, height, mode, now, start, choices);
      GameRules.InitGameSpec(old(State()), width, height, mode, now, start, choices);
    }
  }
}
