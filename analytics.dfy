/** The move and event recorder of analytics.js (class AnalyticsManager), the
    analysis it produces when a game ends, and the comparison with the stored
    history. */
module Analytics {
  import opened Common
  import opened Seqs
  import opened Records
  import opened AnalyticsRules

  /** The configuration handed to startGameAnalysis (game.js:87-91). */
  datatype Config = Config(boardSize: int, boardHeight: int, mode: Mode)

  /** One item pickup: its kind, cell and time since the start in ms. */
  datatype ItemEvent = ItemEvent(kind: ItemKind, position: Cell, timestamp: int)

  /** currentGameData (analytics.js:8-19). `headings` holds the (column,
      row) offset of every move; the source stores its atan2 angle, and only
      the sign of the difference between consecutive angles is ever read. */
  datatype GameLog = GameLog(
    startTime: int,
    startPosition: Option<Cell>,
    moves: seq<MoveRecord>,
    visited: set<Cell>,
    stuck: seq<Cell>,
    items: seq<ItemEvent>,
    headings: seq<Offset>,
    path: seq<Cell>,
    undos: nat,
    config: Config)

  function Heading(from: Cell, to: Cell): Offset {
    Offset(to.col - from.col, to.row - from.row)
  }

  /** The log's own bookkeeping: one heading and one path cell per move, move
      numbers counting from 1, each path cell the target of its move, and the
      visited set holding exactly the path cells. */
  ghost predicate Consistent(l: GameLog) {
    && |l.headings| == |l.moves|
    && |l.path| == |l.moves|
    && (forall i | 0 <= i < |l.moves| ::
          l.moves[i].moveNumber == i + 1 && l.path[i] == l.moves[i].to &&
          l.headings[i] == Heading(l.moves[i].from, l.moves[i].to))
    && (forall c :: c in l.visited <==> c in l.path)
  }

  /** startGameAnalysis (analytics.js:7-20). */
  function NewLog(config: Config, now: int): GameLog {
    GameLog(now, None, [], {}, [], [], [], [], 0, config)
  }

  /** recordMove on a started log (analytics.js:31-46). */
  function LogMove(l: GameLog, from: Cell, to: Cell, now: int): GameLog {
    l.(moves := l.moves + [MoveRecord(from, to, now - l.startTime, |l.moves| + 1)],
       visited := l.visited + {to},
       path := l.path + [to],
       headings := l.headings + [Heading(from, to)])
  }

  /** The recorder's updates on currentGameData, which is null (None) until a
      game is started; each is a no-op then. */
  function WithStart(current: Option<GameLog>, pos: Cell): Option<GameLog> {
    if current.Some? then Some(current.value.(startPosition := Some(pos))) else None
  }

  function WithMove(current: Option<GameLog>, from: Cell, to: Cell, now: int): Option<GameLog> {
    if current.Some? then Some(LogMove(current.value, from, to, now)) else None
  }

  function WithStuck(current: Option<GameLog>, pos: Cell): Option<GameLog> {
    if current.Some? then Some(current.value.(stuck := current.value.stuck + [pos])) else None
  }

  function WithItem(current: Option<GameLog>, kind: ItemKind, pos: Cell, now: int): Option<GameLog> {
    if current.Some? then
      var l := current.value;
      Some(l.(items := l.items + [ItemEvent(kind, pos, now - l.startTime)]))
    else None
  }

  function WithUndo(current: Option<GameLog>): Option<GameLog> {
    if current.Some? then Some(current.value.(undos := current.value.undos + 1)) else None
  }

  lemma NewLogConsistent(config: Config, now: int)
    ensures Consistent(NewLog(config, now))
  {
  }

  /** Consistency only looks at the moves, headings, path and visited set. */
  lemma SameMovesConsistent(l: GameLog, l': GameLog)
    requires Consistent(l)
    requires l'.moves == l.moves && l'.headings == l.headings && l'.path == l.path && l'.visited == l.visited
    ensures Consistent(l')
  {
  }

  /** Recording a move keeps the log consistent, and the new move is numbered
      one past the previous count. */
  lemma LogMoveConsistent(l: GameLog, from: Cell, to: Cell, now: int)
    requires Consistent(l)
    ensures Consistent(LogMove(l, from, to, now))
    ensures var r := LogMove(l, from, to, now); r.moves[|l.moves|].moveNumber == |l.moves| + 1
  {
    var r := LogMove(l, from, to, now);
    forall c ensures c in r.visited <==> c in r.path {
      assert c in r.path <==> c in l.path || c == to;
    }
  }

  /** A logged dead end does not touch the moves, the path or the visited cells. */
  lemma StuckKeepsConsistent(l: GameLog, pos: Cell)
    requires Consistent(l)
    ensures Consistent(l.(stuck := l.stuck + [pos]))
  {
  }

  /** Distinct path cells never outnumber the path. */
  lemma {:induction false} CellsOfPath(path: seq<Cell>, visited: set<Cell>)
    requires forall c :: c in visited <==> c in path
    ensures |visited| <= |path|
    ensures |path| > 0 ==> |visited| > 0
  {
    if |path| > 0 {
      var n := |path| - 1;
      var last := path[n];
      var init := path[..n];
      var rest := set c | c in init;
      CellsOfPath(init, rest);
      assert path == init + [last];
      assert visited == rest + {last};
    }
  }

  /** The object generateAnalysis returns (analytics.js:158-173).
      `advanceRate` is None where the source divides by a zero time and gets
      Infinity; `mostStuckPosition` is the cell, which the source returns as
      its key split at the comma. */
  datatype Analysis = Analysis(
    advanceRate: Option<real>,
    startPosition: Option<Cell>,
    solutionStyle: Style,
    mostStuckPosition: Option<Cell>,
    characteristicDirection: Direction,
    repeatedPaths: seq<Repeat>,
    averageMoveTime: real,
    totalTime: int,
    totalMoves: nat,
    totalHouses: nat,
    coverageRatio: Option<real>,
    dispersion: real,
    itemInteractions: nat,
    undos: nat)

  /** Length of the windows searched for repeats (analytics.js:153). */
  const RepeatLength: nat := 3

  /** houses per second of play. */
  function AdvanceRate(houses: nat, totalTime: int): Option<real> {
    if totalTime == 0 then None else Some(houses as real / (totalTime as real / 1000.0))
  }

  /** What generateAnalysis computes from a log with at least one move, at
      time `now`. The normalised dispersion of the visited cells is a
      floating-point quantity and comes in as `dispersion`; `reversalCw`
      decides exact reversals of heading, as in TurnOf. */
  function AnalysisOf(l: GameLog, now: int, dispersion: real, reversalCw: (Offset, Offset) -> bool): Analysis
    requires |l.moves| > 0
  {
    var turns := Turns(l.headings, reversalCw);
    AnalysisFrom(l, now, dispersion, MostStuck(l.stuck), CountWhere(turns, IsCw), CountWhere(turns, IsCcw),
                 RepeatedSequences(l.path, RepeatLength))
  }

  /** The analysis of a log, given its most frequent dead end, its turn
      counts and its repeated windows. */
  function AnalysisFrom(l: GameLog, now: int, dispersion: real, stuck: Option<Cell>, cw: nat, ccw: nat, repeats: seq<Repeat>): Analysis
    requires |l.moves| > 0
  {
    var totalTime := now - l.startTime;
    var coverage := CoverageRatio(|l.visited|, l.config.boardSize);
    Analysis(
      AdvanceRate(|l.visited|, totalTime),
      l.startPosition,
      SolutionStyle(coverage, dispersion),
      stuck,
      CharacteristicDirection(cw, ccw),
      repeats,
      totalTime as real / |l.moves| as real,
      totalTime,
      |l.moves|,
      |l.visited|,
      coverage,
      dispersion,
      |l.items|,
      l.undos)
  }

  /** For a consistent log: between one visited cell and one per move, at most
      one turn per consecutive pair of moves, and every repeated window is a
      stretch of the path. */
  lemma AnalysisBounds(l: GameLog, now: int, dispersion: real, reversalCw: (Offset, Offset) -> bool)
    requires Consistent(l) && |l.moves| > 0
    ensures var a := AnalysisOf(l, now, dispersion, reversalCw);
            1 <= a.totalHouses <= a.totalMoves &&
            CountWhere(Turns(l.headings, reversalCw), IsCw) + CountWhere(Turns(l.headings, reversalCw), IsCcw) < a.totalMoves &&
            (forall x | x in a.repeatedPaths :: x.cells in Windows(l.path, RepeatLength))
  {
    CellsOfPath(l.path, l.visited);
    CountDisjoint(Turns(l.headings, reversalCw));
    RepeatedSequencesSound(l.path, RepeatLength);
  }

  class AnalyticsManager {
    /** currentGameData: None until a game is started. */
    var current: Option<GameLog>

    ghost predicate Valid()
      reads this
    {
      current.Some? ==> Consistent(current.value)
    }

    constructor()
      ensures current == None && Valid()
    {
      current := None;
    }

    /** startGameAnalysis (analytics.js:7-20): a fresh log, replacing any
        previous one. */
    method StartGameAnalysis(config: Config, now: int)
      modifies this
      ensures current == Some(NewLog(config, now)) && Valid()
    {
      current := Some(NewLog(config, now));
    }

    /** recordStartPosition (analytics.js:22-26). */
    method RecordStartPosition(pos: Cell)
      requires Valid()
      modifies this
      ensures current == WithStart(old(current), pos)
      ensures Valid()
    {
      if current.Some? {
        current := Some(current.value.(startPosition := Some(pos)));
      }
    }

    /** recordMove (analytics.js:28-47): a no-op before startGameAnalysis;
        otherwise appends the move numbered one past the previous count,
        timestamped from the start of the game, and records the target in
        the path and the visited set. */
    method RecordMove(from: Cell, to: Cell, now: int)
      requires Valid()
      modifies this
      ensures current == WithMove(old(current), from, to, now)
      ensures old(current).Some? ==>
                var l := old(current).value;
                current.Some? &&
                current.value.moves == l.moves + [MoveRecord(from, to, now - l.startTime, |l.moves| + 1)] &&
                current.value.path == l.path + [to] &&
                current.value.visited == l.visited + {to}
      ensures Valid()
    {
      if current.Some? {
        LogMoveConsistent(current.value, from, to, now);
        current := Some(LogMove(current.value, from, to, now));
      }
    }

    /** recordStuckPosition (analytics.js:49-54). */
    method RecordStuckPosition(pos: Cell)
      requires Valid()
      modifies this
      ensures current == WithStuck(old(current), pos)
      ensures Valid()
    {
      if current.Some? {
        current := Some(current.value.(stuck := current.value.stuck + [pos]));
      }
    }

    /** recordItemInteraction (analytics.js:56-64). */
    method RecordItemInteraction(kind: ItemKind, pos: Cell, now: int)
      requires Valid()
      modifies this
      ensures current == WithItem(old(current), kind, pos, now)
      ensures Valid()
    {
      if current.Some? {
        var l := current.value;
        current := Some(l.(items := l.items + [ItemEvent(kind, pos, now - l.startTime)]));
      }
    }

    /** recordUndo (analytics.js:66-70): counts the undo; the move log keeps
        the undone move. */
    method RecordUndo()
      requires Valid()
      modifies this
      ensures current == WithUndo(old(current))
      ensures Valid()
    {
      if current.Some? {
        current := Some(current.value.(undos := current.value.undos + 1));
      }
    }

    /** reset (analytics.js:254-256). */
    method Reset()
      modifies this
      ensures current == None && Valid()
    {
      current := None;
    }

    /** generateAnalysis (analytics.js:72-174): null before a game is started
        or while no move is recorded; otherwise the analysis of the log, with
        its counters produced by the loops of the source. */
    method GenerateAnalysis(now: int, dispersion: real, reversalCw: (Offset, Offset) -> bool) returns (a: Option<Analysis>)
      ensures a.None? <==> current.None? || |current.value.moves| == 0
      ensures a.Some? ==> a.value == AnalysisOf(current.value, now, dispersion, reversalCw)
    {
      if current.None? || |current.value.moves| == 0 {
        return None;
      }
      var l := current.value;
      var stuck := MostStuckPosition(l.stuck);
      var cw, ccw := CountTurns(l.headings, reversalCw);
      var repeats := FindRepeatedSequences(l.path, RepeatLength);
      a := Some(AnalysisFrom(l, now, dispersion, stuck, cw, ccw, repeats));
    }
  }

  // ---------------------------------------------------------------- community comparison

  /** One compared metric: the player's value, the community average, their
      difference and the player's percentile. */
  datatype Metric = Metric(player: real, community: real, difference: real, percentile: real)

  datatype Comparison = Comparison(houses: Metric, time: Metric)

  /** `g.totalHouses || 0`: no stored record has a totalHouses key. */
  function HousesSample(history: seq<HistoryRecord>): (r: seq<real>)
    ensures |r| == |history| && forall i | 0 <= i < |r| :: r[i] == 0.0
  {
    seq(|history|, i requires 0 <= i < |history| => 0.0)
  }

  /** `g.totalTime || 0`: only a game record can carry totalTime. */
  function TimeOf(h: HistoryRecord): real {
    match h
    case GameEntry(_, _, g) => if g.totalTime.Some? then g.totalTime.value as real else 0.0
    case PathEntry(_) => 0.0
  }

  function Sum(s: seq<real>): real {
    if |s| == 0 then 0.0 else Sum(s[..|s| - 1]) + s[|s| - 1]
  }

  function MetricOf(player: real, sample: seq<real>, reverse: bool): Metric
    requires |sample| > 0
  {
    var avg := Sum(sample) / |sample| as real;
    Metric(player, avg, player - avg, CalculatePercentile(player, sample, reverse))
  }

  /** compareWithCommunity (analytics.js:210-245), houses and time metrics.
      The category filter compares `config` keys that neither the analysis
      nor any stored record has, so every record passes it. */
  function CompareWithCommunity(a: Analysis, history: seq<HistoryRecord>): (r: Option<Comparison>)
    ensures r.None? <==> |history| == 0
  {
    if |history| == 0 then None
    else
      var times := seq(|history|, i requires 0 <= i < |history| => TimeOf(history[i]));
      Some(Comparison(
        MetricOf(a.totalHouses as real, HousesSample(history), false),
        MetricOf(a.totalTime as real, times, true)))
  }

  lemma {:induction false} AllZerosBelow(s: seq<real>, value: real)
    requires value > 0.0 && forall i | 0 <= i < |s| :: s[i] == 0.0
    ensures CountWhere(s, Ahead(value, false)) == |s|
  {
    if |s| > 0 {
      AllZerosBelow(s[..|s| - 1], value);
    }
  }

  lemma {:induction false} AllZerosNotAhead(s: seq<real>, value: real)
    requires value >= 0.0 && forall i | 0 <= i < |s| :: s[i] == 0.0
    ensures CountWhere(s, Ahead(value, true)) == 0
  {
    if |s| > 0 {
      AllZerosNotAhead(s[..|s| - 1], value);
    }
  }

  /** No record endGame stores carries totalTime, so the time sample is all
      zeros and, with the reversed ranking, a player whose game took any
      time at all is placed at the 0th percentile for time. */
  lemma TimePercentileZero(a: Analysis, history: seq<HistoryRecord>)
    requires |history| > 0 && a.totalTime >= 0
    requires forall i | 0 <= i < |history| :: history[i].GameEntry? ==> history[i].game.totalTime.None?
    ensures CompareWithCommunity(a, history).value.time.percentile == 0.0
  {
    var times := seq(|history|, i requires 0 <= i < |history| => TimeOf(history[i]));
    AllZerosNotAhead(times, a.totalTime as real);
    PercentileCounts(a.totalTime as real, times, true);
  }

  /** Because the houses sample is all zeros, a player who visited any cell
      is always placed at the 100th percentile for houses. */
  lemma HousesPercentileTop(a: Analysis, history: seq<HistoryRecord>)
    requires |history| > 0 && a.totalHouses > 0
    ensures CompareWithCommunity(a, history).value.houses.percentile == 100.0
  {
    var sample := HousesSample(history);
    AllZerosBelow(sample, a.totalHouses as real);
    PercentileCounts(a.totalHouses as real, sample, false);
  }
}
