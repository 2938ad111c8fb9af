/** The path library (pathLibrary.js): the walks saved at the end of each game,
    looked up by id or by player, replayed move by move, exported as CSV and
    drawn as a text grid. Timing, sound and the JSON text are not modelled; the
    library's list and the store it writes through are. */
module Paths {
  import opened Common
  import opened Text
  import opened Seqs
  import opened Records
  import opened Storage

  // ------------------------------------------------------------------ saving

  /** The record savePath builds from endGame's game data, as written
      (pathLibrary.js:13-26). Under `moves` it stores `gameData.moves || []`,
      and endGame puts the move COUNT there (game.js:635), so a game with moves
      gets a number where a list of move records is expected; `time` is
      `totalTime || 0`, and no game record has a `totalTime`. The player is the
      logged-in user, or "guest". */
  function PathOfAsWritten(game: GameRecord, user: Option<string>, now: int): PathRecord {
    PathRecord(now, now, Active(user).GetOr("guest"), game.boardSize, game.mode, game.pathSequence,
      if game.moves > 0 then Count(game.moves) else List([]),
      game.score, |game.visitedCells|, game.totalTime.GetOr(0), game.startPosition)
  }

  /** The record savePath evidently means to build: the same, with the game's
      move log under `moves`. */
  function PathOf(game: GameRecord, user: Option<string>, now: int): PathRecord {
    PathOfAsWritten(game, user, now).(moves := List(game.moveHistory))
  }

  // ----------------------------------------------------------------- lookups

  /** The record is a saved path with this id. Game records carry no id. */
  predicate HasId(h: HistoryRecord, id: int) {
    h.PathEntry? && h.path.id == id
  }

  /** getPath (pathLibrary.js:33-35): the first saved path with the id. */
  function FindPath(saved: seq<HistoryRecord>, id: int): (r: Option<PathRecord>)
    ensures r.Some? ==> r.value.id == id && PathEntry(r.value) in saved
    ensures r.None? <==> forall k | 0 <= k < |saved| :: !HasId(saved[k], id)
  {
    if |saved| == 0 then None
    else if HasId(saved[0], id) then Some(saved[0].path)
    else FindPath(saved[1..], id)
  }

  /** The path found is the one at the first position holding the id. */
  lemma {:induction false} FindPathFirst(saved: seq<HistoryRecord>, id: int, k: nat)
    requires k < |saved| && HasId(saved[k], id)
    requires forall j | 0 <= j < k :: !HasId(saved[j], id)
    ensures FindPath(saved, id) == Some(saved[k].path)
  {
    if k > 0 {
      FindPathFirst(saved[1..], id, k - 1);
    }
  }

  /** The records of one player, in their order. */
  function Filter(saved: seq<HistoryRecord>, user: string): seq<HistoryRecord> {
    if |saved| == 0 then []
    else
      var n := |saved| - 1;
      Filter(saved[..n], user) + (if saved[n].Username() == user then [saved[n]] else [])
  }

  /** getAllPaths (pathLibrary.js:37-42): a named player's records, or all. */
  function AllPaths(saved: seq<HistoryRecord>, username: Option<string>): seq<HistoryRecord> {
    match Active(username)
    case Some(u) => Filter(saved, u)
    case None => saved
  }

  /** Filtering commutes with concatenation, so the records keep their order. */
  lemma {:induction false} FilterAppend(saved: seq<HistoryRecord>, more: seq<HistoryRecord>, user: string)
    ensures Filter(saved + more, user) == Filter(saved, user) + Filter(more, user)
  {
    if |more| == 0 {
      assert saved + more == saved;
    } else {
      var n := |more| - 1;
      assert (saved + more)[..|saved| + n] == saved + more[..n];
      FilterAppend(saved, more[..n], user);
    }
  }

  /** The filtered list holds exactly the player's records. */
  lemma {:induction false} FilterMembers(saved: seq<HistoryRecord>, user: string)
    ensures forall x :: x in Filter(saved, user) <==> x in saved && x.Username() == user
  {
    if |saved| > 0 {
      var n := |saved| - 1;
      FilterMembers(saved[..n], user);
      assert saved == saved[..n] + [saved[n]];
    }
  }

  /** ... and holds each as many times as the list does. */
  lemma {:induction false} FilterCount(saved: seq<HistoryRecord>, user: string)
    ensures |Filter(saved, user)| == CountWhere(saved, (h: HistoryRecord) => h.Username() == user)
  {
    if |saved| > 0 {
      FilterCount(saved[..|saved| - 1], user);
    }
  }

  // ------------------------------------------------------------------ replay

  /** One callback call of replayPath. */
  datatype ReplayEvent = Moved(move: MoveRecord, index: nat, total: nat) | Completed

  /** The moves a replay walks through: a stored list, or none at all for a
      stored count, whose `length` is undefined so that the loop never runs. */
  function ReplayMoves(m: Moves): seq<MoveRecord> {
    match m
    case Count(_) => []
    case List(records) => records
  }

  /** Whether a move keeps the previous move's shape: equal offsets, or equal
      offsets up to sign (pathLibrary.js:112-118). */
  predicate Continuous(prev: MoveRecord, curr: MoveRecord) {
    var prevDx, prevDy := prev.to.col - prev.from.col, prev.to.row - prev.from.row;
    var currDx, currDy := curr.to.col - curr.from.col, curr.to.row - curr.from.row;
    || (prevDx == currDx && prevDy == currDy)
    || (Abs(prevDx) == Abs(currDx) && Abs(prevDy) == Abs(currDy))
  }

  function Abs(x: int): nat {
    if x < 0 then -x else x
  }

  /** The first test is subsumed by the second: a move is continuous exactly
      when it has the previous move's offsets up to sign, so a move straight
      back also counts as continuous. */
  lemma ContinuousUpToSign(prev: MoveRecord, curr: MoveRecord)
    ensures Continuous(prev, curr) <==>
              && Abs(prev.to.col - prev.from.col) == Abs(curr.to.col - curr.from.col)
              && Abs(prev.to.row - prev.from.row) == Abs(curr.to.row - curr.from.row)
    ensures Continuous(prev, MoveRecord(prev.to, prev.from, 0, 0))
  {
  }

  // ------------------------------------------------------------------ export

  const CsvHeader: string := "Move,From Row,From Col,To Row,To Col,Time"

  /** The numbers on the CSV line of the k-th move (pathLibrary.js:138). */
  function LineValues(k: int, m: MoveRecord): seq<int> {
    [k, m.from.row, m.from.col, m.to.row, m.to.col, m.timestamp]
  }

  function Decimals(xs: seq<int>): (r: seq<string>)
    ensures |r| == |xs| && forall i | 0 <= i < |xs| :: r[i] == IntToString(xs[i])
  {
    seq(|xs|, i requires 0 <= i < |xs| => IntToString(xs[i]))
  }

  function CsvLine(k: int, m: MoveRecord): string {
    Join(Decimals(LineValues(k, m)), ',')
  }

  function CsvLines(ms: seq<MoveRecord>): (r: seq<string>)
    ensures |r| == |ms| && forall i | 0 <= i < |ms| :: r[i] == CsvLine(i + 1, ms[i])
  {
    seq(|ms|, i requires 0 <= i < |ms| => CsvLine(i + 1, ms[i]))
  }

  /** The CSV text: the header and one line per move, each ended by '\n'. */
  function Csv(ms: seq<MoveRecord>): string {
    Join([CsvHeader] + CsvLines(ms) + [""], '\n')
  }

  /** One more move adds its line and a line break to the CSV text. */
  lemma CsvSnoc(ms: seq<MoveRecord>, m: MoveRecord)
    ensures Csv(ms + [m]) == Csv(ms) + CsvLine(|ms| + 1, m) + "\n"
  {
    var lines := CsvLines(ms + [m]);
    assert lines == CsvLines(ms) + [CsvLine(|ms| + 1, m)];
    JoinTerminatedSnoc([CsvHeader] + CsvLines(ms), CsvLine(|ms| + 1, m), '\n');
    assert [CsvHeader] + lines == [CsvHeader] + CsvLines(ms) + [CsvLine(|ms| + 1, m)];
  }

  /** Reads a list of decimal fields. */
  function ParseAll(fields: seq<string>): Option<seq<int>> {
    if |fields| == 0 then Some([])
    else
      match (ParseInt(fields[0]), ParseAll(fields[1..]))
      case (Some(x), Some(xs)) => Some([x] + xs)
      case _ => None
  }

  /** Reads one CSV line back into its six numbers. */
  function ParseCsvLine(line: string): Option<seq<int>> {
    var fields := Split(line, ',');
    if |fields| == 6 then ParseAll(fields) else None
  }

  lemma {:induction false} ParseAllDecimals(xs: seq<int>)
    ensures ParseAll(Decimals(xs)) == Some(xs)
  {
    if |xs| > 0 {
      ParseIntRoundTrip(xs[0]);
      assert Decimals(xs)[1..] == Decimals(xs[1..]);
      ParseAllDecimals(xs[1..]);
      assert [xs[0]] + xs[1..] == xs;
    }
  }

  lemma DecimalsAvoid(xs: seq<int>, c: char)
    requires !IsDigit(c) && c != '-'
    ensures forall i | 0 <= i < |xs| :: c !in Decimals(xs)[i]
  {
    forall i | 0 <= i < |xs| ensures c !in Decimals(xs)[i] {
      IntToStringAvoids(xs[i], c);
    }
  }

  /** Each CSV line reads back as the move's number, cells and time. */
  lemma CsvLineReadBack(k: int, m: MoveRecord)
    ensures ParseCsvLine(CsvLine(k, m)) == Some(LineValues(k, m))
    ensures '\n' !in CsvLine(k, m)
  {
    var xs := LineValues(k, m);
    DecimalsAvoid(xs, ',');
    DecimalsAvoid(xs, '\n');
    SplitJoin(Decimals(xs), ',');
    ParseAllDecimals(xs);
    JoinAvoids(Decimals(xs), ',', '\n');
  }

  /** The CSV export splits into the header, one line per move and the empty
      rest after the last '\n'; line k reads back as k and the k-th move's
      from-cell, to-cell and time. */
  lemma CsvReadBack(ms: seq<MoveRecord>)
    ensures Split(Csv(ms), '\n') == [CsvHeader] + CsvLines(ms) + [""]
    ensures forall i | 0 <= i < |ms| :: ParseCsvLine(CsvLines(ms)[i]) == Some(LineValues(i + 1, ms[i]))
  {
    var parts := [CsvHeader] + CsvLines(ms) + [""];
    forall i | 0 <= i < |ms| ensures '\n' !in CsvLines(ms)[i] && ParseCsvLine(CsvLines(ms)[i]) == Some(LineValues(i + 1, ms[i])) {
      CsvLineReadBack(i + 1, ms[i]);
    }
    forall i | 0 <= i < |parts| ensures '\n' !in parts[i] {
      if 0 < i <= |ms| {
        assert parts[i] == CsvLines(ms)[i - 1];
      }
    }
    SplitJoin(parts, '\n');
  }

  /** What exportPath yields for a found path: the record for JSON (its text
      is not modelled), the CSV text for a move list, and the TypeError that
      `forEach` on a stored count raises. */
  datatype Export = AsJson(path: PathRecord) | AsCsv(text: string) | ExportFails

  // ------------------------------------------------------------ visualisation

  /** The position of the last move that ends on the cell, if any. */
  function LastMoveTo(ms: seq<MoveRecord>, c: Cell): Option<nat> {
    if |ms| == 0 then None
    else if ms[|ms| - 1].to == c then Some(|ms| - 1)
    else LastMoveTo(ms[..|ms| - 1], c)
  }

  /** The position found is a move ending on the cell with no later one; none
      is found exactly when no move ends there. */
  lemma {:induction false} LastMoveToSpec(ms: seq<MoveRecord>, c: Cell)
    ensures var r := LastMoveTo(ms, c);
            && (r.Some? ==> r.value < |ms| && ms[r.value].to == c && forall j | r.value < j < |ms| :: ms[j].to != c)
            && (r.None? <==> forall j | 0 <= j < |ms| :: ms[j].to != c)
  {
    if |ms| > 0 && ms[|ms| - 1].to != c {
      var n := |ms| - 1;
      LastMoveToSpec(ms[..n], c);
      assert forall j | 0 <= j < n :: ms[..n][j] == ms[j];
    }
  }

  /** A grid cell: '.', or the two-digit 1-based number of the last move ending there. */
  function Label(ms: seq<MoveRecord>, c: Cell): string {
    match LastMoveTo(ms, c)
    case None => "."
    case Some(k) => Pad2(NatToString(k + 1))
  }

  function Labels(ms: seq<MoveRecord>, row: int, size: nat): (r: seq<string>)
    ensures |r| == size && forall col | 0 <= col < size :: r[col] == Label(ms, Cell(row, col))
  {
    seq(size, col requires 0 <= col < size => Label(ms, Cell(row, col)))
  }

  function RowTexts(ms: seq<MoveRecord>, size: nat): (r: seq<string>)
    ensures |r| == size && forall row | 0 <= row < size :: r[row] == Join(Labels(ms, row, size), ' ')
  {
    seq(size, row requires 0 <= row < size => Join(Labels(ms, row, size), ' '))
  }

  /** The picture: a leading '\n', then each row's cells joined by spaces and ended by '\n'. */
  function Render(ms: seq<MoveRecord>, size: nat): string {
    Join([""] + RowTexts(ms, size) + [""], '\n')
  }

  /** A label holds neither a space nor a line break. */
  lemma LabelAvoids(ms: seq<MoveRecord>, c: Cell)
    ensures ' ' !in Label(ms, c) && '\n' !in Label(ms, c)
  {
    match LastMoveTo(ms, c)
    case None =>
    case Some(k) =>
      var d := NatToString(k + 1);
      var p := Pad2(d);
      forall i | 0 <= i < |p| ensures p[i] != ' ' && p[i] != '\n' {
        if i >= |p| - |d| {
          assert p[i] == d[i - (|p| - |d|)];
        }
      }
  }

  /** The label of a cell after the first n moves have been written. */
  function LabelAfter(ms: seq<MoveRecord>, n: nat, c: Cell): string
    requires n <= |ms|
  {
    if n == 0 then "."
    else if ms[n - 1].to == c then Pad2(NatToString(n))
    else LabelAfter(ms, n - 1, c)
  }

  /** Writing move n changes only the label of its target cell. */
  lemma LabelAfterStep(ms: seq<MoveRecord>, n: nat, c: Cell)
    requires n < |ms|
    ensures LabelAfter(ms, n + 1, c) == if ms[n].to == c then Pad2(NatToString(n + 1)) else LabelAfter(ms, n, c)
  {
  }

  /** Writing the moves one by one leaves each cell with its label. */
  lemma {:induction false} LabelAfterAll(ms: seq<MoveRecord>, n: nat, c: Cell)
    requires n <= |ms|
    ensures LabelAfter(ms, n, c) == Label(ms[..n], c)
  {
    if n > 0 {
      LabelAfterAll(ms, n - 1, c);
      assert ms[..n][..n - 1] == ms[..n - 1];
    }
  }

  /** One more row of the picture: its cells joined by spaces, then '\n'. */
  lemma ShowStep(ms: seq<MoveRecord>, size: nat, row: nat)
    requires row < size
    ensures Join([""] + RowTexts(ms, size)[..row + 1] + [""], '\n')
            == Join([""] + RowTexts(ms, size)[..row] + [""], '\n') + Join(Labels(ms, row, size), ' ') + "\n"
  {
    var done := [""] + RowTexts(ms, size)[..row];
    var line := Join(Labels(ms, row, size), ' ');
    JoinTerminatedSnoc(done, line, '\n');
    assert [""] + RowTexts(ms, size)[..row + 1] == done + [line];
  }

  /** The picture of a square board of side size >= 1: after the leading empty
      line come `size` rows and then the empty rest; each row splits at spaces
      into its `size` cells, and the cell of column c in row r is '.' when no
      move ends there and otherwise the 2-digit number of the last move that
      does. */
  lemma RenderGrid(ms: seq<MoveRecord>, size: nat)
    requires size >= 1
    ensures var lines := Split(Render(ms, size), '\n');
            && |lines| == size + 2 && lines[0] == "" && lines[size + 1] == ""
            && forall r | 0 <= r < size :: Split(lines[r + 1], ' ') == Labels(ms, r, size)
    ensures forall c: Cell :: (Label(ms, c) == ".") <==> forall j | 0 <= j < |ms| :: ms[j].to != c
  {
    var rows := RowTexts(ms, size);
    forall r | 0 <= r < size ensures '\n' !in rows[r] && Split(rows[r], ' ') == Labels(ms, r, size) {
      var labels := Labels(ms, r, size);
      forall col | 0 <= col < size ensures ' ' !in labels[col] && '\n' !in labels[col] {
        LabelAvoids(ms, Cell(r, col));
      }
      JoinAvoids(labels, ' ', '\n');
      SplitJoin(labels, ' ');
    }
    var parts := [""] + rows + [""];
    forall i | 0 <= i < |parts| ensures '\n' !in parts[i] {
      if 0 < i <= size {
        assert parts[i] == rows[i - 1];
      }
    }
    SplitJoin(parts, '\n');
    forall c: Cell ensures (Label(ms, c) == ".") <==> forall j | 0 <= j < |ms| :: ms[j].to != c {
      LastMoveToSpec(ms, c);
      if LastMoveTo(ms, c).Some? {
        assert |Pad2(NatToString(LastMoveTo(ms, c).value + 1))| >= 2;
      }
    }
  }

  /** What generatePathVisualization yields for a found path: the picture, or
      the error the source raises (Array with a negative length, `forEach` on
      a stored count, a move outside the square board). */
  datatype Picture = Grid(text: string) | DrawFails

  /** The outcome for a found path. */
  function Drawn(p: PathRecord): Picture {
    if p.boardSize < 0 then DrawFails
    else
      match p.moves
      case Count(_) => DrawFails
      case List(ms) =>
        if forall i | 0 <= i < |ms| :: InBoard(ms[i].to, p.boardSize, p.boardSize)
        then Grid(Render(ms, p.boardSize))
        else DrawFails
  }

  /** A game with at least one move is saved with its move count, so its path
      replays no move, cannot be exported as CSV and cannot be drawn; saved
      with its move log, it replays and exports every move. */
  lemma SavedCountLosesMoves(game: GameRecord, user: Option<string>, now: int)
    requires game.moves > 0
    ensures var p := PathOfAsWritten(game, user, now);
            && ReplayMoves(p.moves) == [] && p.moves == Count(game.moves)
            && Drawn(p) == DrawFails
    ensures var p := PathOf(game, user, now);
            && ReplayMoves(p.moves) == game.moveHistory
            && ((p.boardSize >= 0 && forall i | 0 <= i < |game.moveHistory| :: InBoard(game.moveHistory[i].to, p.boardSize, p.boardSize))
                ==> Drawn(p) == Grid(Render(game.moveHistory, p.boardSize)))
  {
  }

  // ------------------------------------------------------------------- class

  /** The library: the list loaded from the store's history at start, plus the
      paths saved since, and the store it writes through. */
  class PathLibrary {
    var savedPaths: seq<HistoryRecord>
    const storage: StorageManager

    /** loadPaths (pathLibrary.js:8-11). */
    constructor(storage: StorageManager)
      ensures this.storage == storage && savedPaths == storage.data.gameHistory
    {
      this.storage := storage;
      savedPaths := storage.data.gameHistory;
    }

    /** Appends the path to the library and hands it to the store's history. */
    method Keep(p: PathRecord, now: int)
      modifies this`savedPaths, storage`data
      ensures savedPaths == old(savedPaths) + [PathEntry(p)]
      ensures storage.data == match Active(storage.currentUser)
                              case None => old(storage.data)
                              case Some(u) => AddHistory(old(storage.data), u, OfPath(p), now)
    {
      savedPaths := savedPaths + [PathEntry(p)];
      storage.SaveGameHistory(OfPath(p), now);
    }

    /** savePath as written: stores the move count under `moves`. */
    method SavePathAsWritten(game: GameRecord, now: int) returns (p: PathRecord)
      modifies this`savedPaths, storage`data
      ensures p == PathOfAsWritten(game, storage.currentUser, now)
      ensures savedPaths == old(savedPaths) + [PathEntry(p)]
      ensures storage.data == match Active(storage.currentUser)
                              case None => old(storage.data)
                              case Some(u) => AddHistory(old(storage.data), u, OfPath(p), now)
    {
      p := PathOfAsWritten(game, storage.currentUser, now);
      Keep(p, now);
    }

    /** savePath with the move log stored under `moves`. */
    method SavePath(game: GameRecord, now: int) returns (p: PathRecord)
      modifies this`savedPaths, storage`data
      ensures p == PathOf(game, storage.currentUser, now)
      ensures savedPaths == old(savedPaths) + [PathEntry(p)]
      ensures storage.data == match Active(storage.currentUser)
                              case None => old(storage.data)
                              case Some(u) => AddHistory(old(storage.data), u, OfPath(p), now)
    {
      p := PathOf(game, storage.currentUser, now);
      Keep(p, now);
    }

    /** replayPath's callback calls, without the pauses and sounds
        (pathLibrary.js:45-71): none for an unknown id; otherwise onMove for
        each move with its 1-based number and the total, then onComplete. */
    method ReplayPath(id: int) returns (events: seq<ReplayEvent>)
      ensures FindPath(savedPaths, id).None? ==> events == []
      ensures FindPath(savedPaths, id).Some? ==>
                var ms := ReplayMoves(FindPath(savedPaths, id).value.moves);
                && |events| == |ms| + 1
                && (forall i | 0 <= i < |ms| :: events[i] == Moved(ms[i], i + 1, |ms|))
                && events[|ms|] == Completed
    {
      var found := FindPath(savedPaths, id);
      if found.None? {
        return [];
      }
      var ms := ReplayMoves(found.value.moves);
      events := [];
      var i := 0;
      while i < |ms|
        invariant 0 <= i <= |ms| && |events| == i
        invariant forall j | 0 <= j < i :: events[j] == Moved(ms[j], j + 1, |ms|)
      {
        events := events + [Moved(ms[i], i + 1, |ms|)];
        i := i + 1;
      }
      events := events + [Completed];
    }

    /** calculateOptimizedSpeeds (pathLibrary.js:100-125): one speed per move,
        2 for the first, then 3 for a move that keeps the previous move's
        shape and 1.5 otherwise. */
    method CalculateOptimizedSpeeds(moves: seq<MoveRecord>) returns (speeds: seq<real>)
      ensures |speeds| == |moves|
      ensures |moves| > 0 ==> speeds[0] == 2.0
      ensures forall i | 0 < i < |moves| :: speeds[i] == if Continuous(moves[i - 1], moves[i]) then 3.0 else 1.5
    {
      speeds := [];
      var i := 0;
      while i < |moves|
        invariant 0 <= i <= |moves| && |speeds| == i
        invariant i > 0 ==> speeds[0] == 2.0
        invariant forall j | 0 < j < i :: speeds[j] == if Continuous(moves[j - 1], moves[j]) then 3.0 else 1.5
      {
        if i == 0 {
          speeds := speeds + [2.0];
        } else {
          speeds := speeds + [if Continuous(moves[i - 1], moves[i]) then 3.0 else 1.5];
        }
        i := i + 1;
      }
    }

    /** The CSV branch's loop (pathLibrary.js:136-140). */
    method CsvExport(ms: seq<MoveRecord>) returns (csv: string)
      ensures csv == Csv(ms)
    {
      csv := CsvHeader + "\n";
      JoinSnoc([CsvHeader], "", '\n');
      assert ms[..0] == [] && CsvLines([]) == [];
      var i := 0;
      while i < |ms|
        invariant 0 <= i <= |ms|
        invariant csv == Csv(ms[..i])
      {
        CsvSnoc(ms[..i], ms[i]);
        assert ms[..i + 1] == ms[..i] + [ms[i]];
        csv := csv + CsvLine(i + 1, ms[i]) + "\n";
        i := i + 1;
      }
      assert ms[..i] == ms;
    }

    /** exportPath (pathLibrary.js:128-143): nothing for an unknown id or a
        format other than "json" and "csv". */
    method ExportPath(id: int, format: string) returns (r: Option<Export>)
      ensures r.None? <==> FindPath(savedPaths, id).None? || (format != "json" && format != "csv")
      ensures r.Some? && format == "json" ==> r.value == AsJson(FindPath(savedPaths, id).value)
      ensures r.Some? && format == "csv" ==>
                r.value == match FindPath(savedPaths, id).value.moves
                           case Count(_) => ExportFails
                           case List(ms) => AsCsv(Csv(ms))
    {
      var found := FindPath(savedPaths, id);
      if found.None? {
        return None;
      }
      if format == "json" {
        return Some(AsJson(found.value));
      } else if format == "csv" {
        match found.value.moves
        case Count(_) =>
          return Some(ExportFails);
        case List(ms) =>
          var text := CsvExport(ms);
          return Some(AsCsv(text));
      }
      return None;
    }

    /** Fills a size-by-size board with '.', writes each move's number on its
        target cell, then renders it; None when a move lands outside the
        board (pathLibrary.js:151-163). */
    method Draw(ms: seq<MoveRecord>, size: nat) returns (r: Option<string>)
      ensures r.None? <==> exists i | 0 <= i < |ms| :: !InBoard(ms[i].to, size, size)
      ensures r.Some? ==> r.value == Render(ms, size)
    {
      var board := new string[size, size]((row, col) => ".");
      var ok := Mark(board, ms);
      if !ok {
        return None;
      }
      var text := Show(board, ms);
      return Some(text);
    }

    /** The forEach over the moves: each move's number goes on its target cell. */
    method Mark(board: array2<string>, ms: seq<MoveRecord>) returns (ok: bool)
      requires board.Length0 == board.Length1
      requires forall a, b | 0 <= a < board.Length0 && 0 <= b < board.Length1 :: board[a, b] == "."
      modifies board
      ensures ok <==> forall i | 0 <= i < |ms| :: InBoard(ms[i].to, board.Length0, board.Length0)
      ensures ok ==> forall a, b | 0 <= a < board.Length0 && 0 <= b < board.Length1 :: board[a, b] == Label(ms, Cell(a, b))
    {
      var size := board.Length0;
      var i := 0;
      while i < |ms|
        invariant 0 <= i <= |ms|
        invariant forall k | 0 <= k < i :: InBoard(ms[k].to, size, size)
        invariant forall a, b | 0 <= a < size && 0 <= b < size :: board[a, b] == LabelAfter(ms, i, Cell(a, b))
      {
        var c := ms[i].to;
        if !InBoard(c, size, size) {
          return false;
        }
        board[c.row, c.col] := Pad2(NatToString(i + 1));
        forall a, b | 0 <= a < size && 0 <= b < size ensures board[a, b] == LabelAfter(ms, i + 1, Cell(a, b)) {
          LabelAfterStep(ms, i, Cell(a, b));
        }
        i := i + 1;
      }
      assert ms[..i] == ms;
      forall a, b | 0 <= a < size && 0 <= b < size ensures board[a, b] == Label(ms, Cell(a, b)) {
        LabelAfterAll(ms, |ms|, Cell(a, b));
      }
      return true;
    }

    /** The rendering loop: a leading '\n', then each row joined by spaces and
        ended by '\n'. */
    method Show(board: array2<string>, ms: seq<MoveRecord>) returns (text: string)
      requires board.Length0 == board.Length1
      requires forall a, b | 0 <= a < board.Length0 && 0 <= b < board.Length1 :: board[a, b] == Label(ms, Cell(a, b))
      ensures text == Render(ms, board.Length0)
    {
      var size := board.Length0;
      text := "\n";
      var row := 0;
      while row < size
        invariant 0 <= row <= size
        invariant text == Join([""] + RowTexts(ms, size)[..row] + [""], '\n')
      {
        var cells := seq(size, col requires 0 <= col < size reads board => board[row, col]);
        assert cells == Labels(ms, row, size);
        ShowStep(ms, size, row);
        text := text + Join(cells, ' ') + "\n";
        row := row + 1;
      }
      assert RowTexts(ms, size)[..row] == RowTexts(ms, size);
    }

    /** generatePathVisualization (pathLibrary.js:146-165): nothing for an
        unknown id, otherwise the picture or the error. */
    method GeneratePathVisualization(id: int) returns (r: Option<Picture>)
      ensures r == match FindPath(savedPaths, id)
                   case None => None
                   case Some(p) => Some(Drawn(p))
    {
      var found := FindPath(savedPaths, id);
      if found.None? {
        return None;
      }
      var p := found.value;
      if p.boardSize < 0 {
        return Some(DrawFails);
      }
      match p.moves
      case Count(_) =>
        return Some(DrawFails);
      case List(ms) =>
        var text := Draw(ms, p.boardSize);
        if text.None? {
          return Some(DrawFails);
        }
        return Some(Grid(text.value));
    }
  }
}
