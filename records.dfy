/** The records that flow between the game, the analytics recorder, the path
    library and the persistent store. */
module Records {
  import opened Common

  /** One entry of the analytics move log: the move, its time since the start
      of the game in milliseconds, and its 1-based number (analytics.js:31-36). */
  datatype MoveRecord = MoveRecord(from: Cell, to: Cell, timestamp: int, moveNumber: int)

  /** The record endGame builds for a finished game (game.js:628-645).
      `startPosition` holds the knight's position at the end of the game, as the
      source fills it. `totalTime` stands for the `totalTime` key that the
      achievement rules and savePath read; endGame never sets it (it writes
      `time`), so every record built by the game has None there. The source also
      attaches the post-game analysis object; nothing in the modelled code reads
      it back, so it is not part of this record. */
  datatype GameRecord = GameRecord(
    boardSize: int,
    boardHeight: int,
    mode: Mode,
    score: int,
    houses: nat,
    time: int,
    moves: nat,
    moveHistory: seq<MoveRecord>,
    itemsCollected: nat,
    startPosition: Option<Cell>,
    undos: nat,
    minesHit: nat,
    minesOnBoard: nat,
    pathSequence: seq<Cell>,
    visitedCells: set<Cell>,
    totalTime: Option<int>)

  /** What a saved path holds under `moves`: savePath copies `gameData.moves || []`,
      which is the game's move count, or an empty list when that count is 0. A
      list of move records is what replay, export and visualisation expect. */
  datatype Moves = Count(n: nat) | List(records: seq<MoveRecord>)

  /** The record savePath builds (pathLibrary.js:14-26). */
  datatype PathRecord = PathRecord(
    id: int,
    timestamp: int,
    username: string,
    boardSize: int,
    mode: Mode,
    path: seq<Cell>,
    moves: Moves,
    score: int,
    houses: nat,
    time: int,
    startPosition: Option<Cell>)

  /** What saveGameHistory is handed: a saved path, or a finished game. */
  datatype Payload = OfPath(path: PathRecord) | OfGame(game: GameRecord)

  /** One element of the stored game history. saveGameHistory spreads the
      payload over `{username, timestamp}`, so a path keeps its own username and
      timestamp, while a game record gets the current user and the time of saving
      (storage.js:169-173). */
  datatype HistoryRecord =
    | PathEntry(path: PathRecord)
    | GameEntry(user: string, stamp: int, game: GameRecord)
  {
    function Username(): string {
      match this
      case PathEntry(p) => p.username
      case GameEntry(u, _, _) => u
    }
  }

  /** The history record saveGameHistory stores for a payload. */
  function Stamp(payload: Payload, user: string, now: int): (r: HistoryRecord)
    ensures payload.OfGame? ==> r.Username() == user && r.GameEntry? && r.stamp == now && r.game == payload.game
    ensures payload.OfPath? ==> r == PathEntry(payload.path)
  {
    match payload
    case OfPath(p) => PathEntry(p)
    case OfGame(g) => GameEntry(user, now, g)
  }
}
