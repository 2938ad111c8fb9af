/** The alternative controls (controls.js): chess notation for cells, moving
    by a typed coordinate, and choosing among the knight's moves with the
    arrow keys. The controls drive the session through handleCellClick; the
    DOM highlighting, the error pop-up and its timer are not modelled. */
module Controls {
  import opened Common
  import opened Text
  import opened Knight
  import Game
  import GameRules

  // ---------------------------------------------------------------------
  // Chess notation.

  /** toChessNotation (controls.js:162-166): the column's letter counted from
      'a', then the rank, which is the row plus one in decimal. */
  function ToChessNotation(row: int, col: int): string
    requires 0 <= col < 0xD800 - 'a' as int
  {
    [('a' as int + col) as char] + IntToString(row + 1)
  }

  /** toLowerCase on one character, for the ASCII letters. */
  function Lower(c: char): char {
    if 'A' <= c <= 'Z' then (c as int - 'A' as int + 'a' as int) as char else c
  }

  /** parseInt of a single character, minus one: the row a rank digit names;
      None where parseInt gives NaN. */
  function RankRow(c: char): Option<int> {
    if IsDigit(c) then Some(DigitValue(c) as int - 1) else None
  }

  /** A coordinate read back from text: the row is None where it is NaN. */
  datatype Coordinate = Coordinate(row: Option<int>, col: int)

  /** fromChessNotation (controls.js:169-177): the first character, lowered,
      gives the column and the second alone gives the row, so only one rank
      digit is read. An empty string has no first character to lower and the
      call fails (None); a one-character string has a NaN row. */
  function FromChessNotation(notation: string): Option<Coordinate> {
    if |notation| == 0 then None
    else
      var row := if |notation| >= 2 then RankRow(notation[1]) else None;
      Some(Coordinate(row, Lower(notation[0]) as int - 'a' as int))
  }

  /** Reading back the notation of a cell in the first 26 columns and the
      first nine rows gives that cell. */
  lemma ChessNotationRoundTrip(row: int, col: int)
    requires 0 <= col <= 25 && 0 <= row <= 8
    ensures FromChessNotation(ToChessNotation(row, col)) == Some(Coordinate(Some(row), col))
  {
    assert IntToString(row + 1) == [DigitChar(row + 1)];
  }

  /** From the tenth rank on, only the rank's leading digit is read back, so
      the row read is one of the first nine and never the cell's own: the
      notation of row 9 ("a10") reads back as row 0. */
  lemma LongRankMisread(row: int, col: int)
    requires 0 <= col <= 25 && row >= 9
    ensures var c := FromChessNotation(ToChessNotation(row, col));
            && c.Some? && c.value.col == col
            && c.value.row.Some? && 0 <= c.value.row.value <= 8 && c.value.row != Some(row)
    ensures row == 9 ==> FromChessNotation(ToChessNotation(row, col)) == Some(Coordinate(Some(0), col))
  {
    var digits := NatToString(row + 1);
    assert IntToString(row + 1) == digits;
    assert |digits| > 1 && IsDigit(digits[0]) && digits[0] != '0';
    assert ToChessNotation(row, col)[1] == digits[0];
    if row == 9 {
      assert digits == NatToString(1) + [DigitChar(0)];
    }
  }

  // ---------------------------------------------------------------------
  // Moving by a typed coordinate.

  /** What handleCoordinateInput does with the text: nothing for text under
      two characters, an error message for a bad coordinate or a cell the
      knight cannot reach, a call that fails when no knight is placed yet,
      and otherwise a move. */
  datatype InputOutcome = Ignored | InvalidCoordinate | NoKnight | InvalidMove | Move(target: Cell)

  /** The cell typed text names: a letter for the column and one digit for the
      rank; None when the text is short or the rank is not a digit. */
  function Typed(input: string): Option<Cell> {
    if |input| < 2 then None
    else
      match RankRow(input[1])
      case None => None
      case Some(row) => Some(Cell(row, input[0] as int - 'a' as int))
  }

  /** handleCoordinateInput (controls.js:105-138) with the row bounded by
      rowLimit and the column by the width. */
  function InputOutcomeWithin(s: GameRules.Session, input: string, rowLimit: int): InputOutcome {
    if |input| < 2 then Ignored
    else
      match Typed(input)
      case None => InvalidCoordinate
      case Some(c) =>
        if c.row < 0 || c.row >= rowLimit || c.col < 0 || c.col >= s.width then InvalidCoordinate
        else if s.knight.None? then NoKnight
        else if c !in GameRules.ValidMoves(s) then InvalidMove
        else Move(c)
  }

  /** handleCoordinateInput as written: the row is checked against the board
      size, which is the width, so on a board taller than it is wide the rows
      past the width can never be typed. */
  function CoordinateOutcomeAsWritten(s: GameRules.Session, input: string): InputOutcome {
    InputOutcomeWithin(s, input, s.width)
  }

  /** handleCoordinateInput with the row checked against the height. */
  function CoordinateOutcome(s: GameRules.Session, input: string): InputOutcome {
    InputOutcomeWithin(s, input, s.height)
  }

  /** Typed text moves the knight exactly when it names a cell the knight can
      move to, and then to that cell; text under two characters is ignored and
      an unreadable rank is an error. */
  lemma CoordinateOutcomeSpec(s: GameRules.Session, input: string)
    ensures CoordinateOutcome(s, input).Move? <==> Typed(input).Some? && GameRules.CanMoveTo(s, Typed(input).value)
    ensures CoordinateOutcome(s, input).Move? ==> CoordinateOutcome(s, input).target == Typed(input).value
    ensures CoordinateOutcome(s, input) == Ignored <==> |input| < 2
    ensures |input| >= 2 && Typed(input).None? ==> CoordinateOutcome(s, input) == InvalidCoordinate
  {
    if Typed(input).Some? && s.knight.Some? {
      GameRules.ValidMovesAgree(s, Typed(input).value);
    }
  }

  /** As written, every move typed text makes is one the corrected check
      makes too. */
  lemma AsWrittenMovesAreMoves(s: GameRules.Session, input: string)
    ensures CoordinateOutcomeAsWritten(s, input).Move? ==> CoordinateOutcome(s, input) == CoordinateOutcomeAsWritten(s, input)
  {
    var c := Typed(input);
    if CoordinateOutcomeAsWritten(s, input).Move? {
      GameRules.ValidMovesAgree(s, c.value);
    }
  }

  /** On a board 5 wide and 8 tall with the knight on row 4, column 1, the
      knight can move to row 6, column 0, but "a7" is refused as an invalid
      coordinate as written; checked against the height it moves there. */
  lemma RowCheckedAgainstWidth(s: GameRules.Session)
    requires s.width == 5 && s.height == 8 && s.knight == Some(Cell(4, 1)) && s.visited == {Cell(4, 1)}
    ensures GameRules.CanMoveTo(s, Cell(6, 0))
    ensures CoordinateOutcomeAsWritten(s, "a7") == InvalidCoordinate
    ensures CoordinateOutcome(s, "a7") == Move(Cell(6, 0))
  {
    assert Typed("a7") == Some(Cell(6, 0));
    GameRules.ValidMovesAgree(s, Cell(6, 0));
  }

  // ---------------------------------------------------------------------
  // Choosing a move with the keyboard.

  datatype ControlMode = Touch | Keyboard | Text

  datatype Key = ArrowUp | ArrowDown | ArrowLeft | ArrowRight | Enter | Space | Escape | OtherKey
  {
    predicate IsArrow() {
      ArrowUp? || ArrowDown? || ArrowLeft? || ArrowRight?
    }
  }

  /** Math.ceil(Math.sqrt(n)) for a whole n: the least k with k * k >= n. */
  function CeilSqrt(n: nat): (k: nat)
    ensures k * k >= n && (k == 0 || (k - 1) * (k - 1) < n)
  {
    CeilSqrtFrom(n, 0)
  }

  function CeilSqrtFrom(n: nat, k: nat): (r: nat)
    requires k == 0 || (k - 1) * (k - 1) < n
    ensures r * r >= n && (r == 0 || (r - 1) * (r - 1) < n)
    decreases n - k
  {
    if k * k >= n then k
    else
      assert k <= k * k;
      CeilSqrtFrom(n, k + 1)
  }

  /** The index an arrow key selects among count moves laid out in rows of
      ceil(sqrt(count)) (controls.js:40-51): up and down move by a row, left
      and right by one, clamped to the list. */
  function Navigate(key: Key, index: int, count: nat): int
    requires key.IsArrow()
  {
    var cols := CeilSqrt(count);
    match key
    case ArrowUp => Max(0, index - cols)
    case ArrowDown => Min(count - 1, index + cols)
    case ArrowLeft => Max(0, index - 1)
    case ArrowRight => Min(count - 1, index + 1)
  }

  /** From a selection in the list, every arrow key keeps the selection in
      the list; up and left never go below the first move and down and right
      never past the last. */
  lemma NavigateInRange(key: Key, index: int, count: nat)
    requires key.IsArrow() && 0 <= index < count
    ensures 0 <= Navigate(key, index, count) < count
    ensures key.ArrowUp? && index < CeilSqrt(count) ==> Navigate(key, index, count) == 0
    ensures key.ArrowDown? && index + CeilSqrt(count) >= count ==> Navigate(key, index, count) == count - 1
  {
  }

  /** Away from the edges, up undoes down and left undoes right. */
  lemma NavigateInverse(index: int, count: nat)
    requires 0 <= index
    ensures index + CeilSqrt(count) < count ==> Navigate(ArrowUp, Navigate(ArrowDown, index, count), count) == index
    ensures index + 1 < count ==> Navigate(ArrowLeft, Navigate(ArrowRight, index, count), count) == index
  {
  }

  /** The selection state the key handler keeps: the index (a variable of the
      handler's closure) and the highlighted cell. */
  datatype Selection = Selection(index: int, cell: Option<Cell>)

  /** A key press's effect: the new selection and the cell clicked, if any. */
  datatype KeyEffect = KeyEffect(selection: Selection, click: Option<Cell>)

  /** highlightKeyboardSelection (controls.js:73-83): the move at the index,
      when there is one. */
  function Highlight(moves: seq<Cell>, index: int): Option<Cell> {
    if 0 <= index < |moves| then Some(moves[index]) else None
  }

  /** The knight's moves when keys are handled: in keyboard mode once the
      knight is placed. */
  function KeyboardMoves(mode: ControlMode, s: GameRules.Session): Option<seq<Cell>> {
    if mode == Keyboard && s.knight.Some? then Some(GameRules.ValidMoves(s)) else None
  }

  /** The keydown handler (controls.js:23-70) on the selection: ignored without
      moves; arrows move the index and highlight; Enter and Space click the
      selected move, if there is one, and go back to the first; Escape clears
      the highlight. */
  function PressKey(sel: Selection, key: Key, moves: Option<seq<Cell>>): KeyEffect {
    if moves.None? || |moves.value| == 0 then KeyEffect(sel, None)
    else
      var ms := moves.value;
      match key
      case ArrowUp | ArrowDown | ArrowLeft | ArrowRight =>
        var i := Navigate(key, sel.index, |ms|);
        KeyEffect(Selection(i, Highlight(ms, i)), None)
      case Enter | Space =>
        if 0 <= sel.index < |ms| then KeyEffect(sel.(index := 0), Some(ms[sel.index])) else KeyEffect(sel, None)
      case Escape => KeyEffect(sel.(cell := None), None)
      case OtherKey => KeyEffect(sel, None)
  }

  /** The keyboard clicks exactly on Enter or Space with a selection among the
      moves, it clicks the selected move and goes back to the first; after an
      arrow the highlighted cell is the move at the new index, and from a
      selection in the list it stays in the list. */
  lemma PressKeySpec(sel: Selection, key: Key, moves: Option<seq<Cell>>)
    ensures var e := PressKey(sel, key, moves);
            && (e.click.Some? <==> moves.Some? && (key.Enter? || key.Space?) && 0 <= sel.index < |moves.value|)
            && (e.click.Some? ==> e.click.value == moves.value[sel.index] && e.selection.index == 0)
    ensures var e := PressKey(sel, key, moves);
            moves.Some? && |moves.value| > 0 && key.IsArrow() ==>
              && (e.selection.cell.Some? <==> 0 <= e.selection.index < |moves.value|)
              && (e.selection.cell.Some? ==> e.selection.cell.value == moves.value[e.selection.index])
              && (0 <= sel.index < |moves.value| ==> e.selection.cell.Some?)
    ensures moves.None? ==> PressKey(sel, key, moves) == KeyEffect(sel, None)
  {
    if moves.Some? && |moves.value| > 0 && key.IsArrow() && 0 <= sel.index < |moves.value| {
      NavigateInRange(key, sel.index, |moves.value|);
    }
  }

  /** A keyboard click in a running game always moves the knight: the cell
      clicked is one of its valid moves, so the session changes. */
  lemma KeyboardClickMoves(mode: ControlMode, s: GameRules.Session, sel: Selection, key: Key, now: int)
    requires !s.gameOver
    ensures var e := PressKey(sel, key, KeyboardMoves(mode, s));
            e.click.Some? ==> GameRules.CanMoveTo(s, e.click.value)
                              && GameRules.HandleCellClick(s, e.click.value, now) != s
  {
    var e := PressKey(sel, key, KeyboardMoves(mode, s));
    if e.click.Some? {
      PressKeySpec(sel, key, KeyboardMoves(mode, s));
      GameRules.ValidMovesAgree(s, e.click.value);
      GameRules.ClickChangesIffValid(s, e.click.value, now);
    }
  }

  /** The control manager: the control mode, the keyboard selection and the
      session it plays on. */
  class ControlManager {
    var controlMode: ControlMode
    var selectedCell: Option<Cell>
    var selectedIndex: int
    const game: Game.GameSession

    /** new ControlManager() (controls.js:3-8): touch mode, nothing selected. */
    constructor(game: Game.GameSession)
      ensures this.game == game
      ensures controlMode == Touch && selectedCell == None && selectedIndex == 0
    {
      this.game := game;
      controlMode, selectedCell, selectedIndex := Touch, None, 0;
    }

    /** setControlMode (controls.js:15-18), without the panel switching. */
    method SetControlMode(mode: ControlMode)
      modifies this`controlMode
      ensures controlMode == mode
    {
      controlMode := mode;
    }

    /** handleCoordinateInput (controls.js:105-138) as written: the row is
        checked against the board size, the width. The outcome is the
        message shown, and a move is made through handleCellClick. */
    method HandleCoordinateInputAsWritten(input: string, now: int) returns (outcome: InputOutcome)
      requires game.analytics.Valid()
      modifies game, game.analytics
      ensures outcome == CoordinateOutcomeAsWritten(old(game.State()), input)
      ensures game.State() == if outcome.Move? then GameRules.HandleCellClick(old(game.State()), outcome.target, now)
                              else old(game.State())
      ensures old(game.Valid()) ==> game.Valid()
      ensures game.analytics.Valid()
    {
      outcome := HandleInputWithin(input, now, game.width);
    }

    /** handleCoordinateInput corrected: the row is checked against the
        height. */
    method HandleCoordinateInput(input: string, now: int) returns (outcome: InputOutcome)
      requires game.analytics.Valid()
      modifies game, game.analytics
      ensures outcome == CoordinateOutcome(old(game.State()), input)
      ensures game.State() == if outcome.Move? then GameRules.HandleCellClick(old(game.State()), outcome.target, now)
                              else old(game.State())
      ensures old(game.Valid()) ==> game.Valid()
      ensures game.analytics.Valid()
    {
      outcome := HandleInputWithin(input, now, game.height);
    }

    /** The handler with the row bounded by rowLimit. */
    method HandleInputWithin(input: string, now: int, rowLimit: int) returns (outcome: InputOutcome)
      requires game.analytics.Valid()
      modifies game, game.analytics
      ensures outcome == InputOutcomeWithin(old(game.State()), input, rowLimit)
      ensures game.State() == if outcome.Move? then GameRules.HandleCellClick(old(game.State()), outcome.target, now)
                              else old(game.State())
      ensures old(game.Valid()) ==> game.Valid()
      ensures game.analytics.Valid()
    {
      if |input| < 2 {
        return Ignored;
      }
      var col := input[0] as int - 'a' as int;
      var rank := RankRow(input[1]);
      if rank.None? || rank.value < 0 || rank.value >= rowLimit || col < 0 || col >= game.width {
        return InvalidCoordinate;
      }
      var row := rank.value;
      if game.knight.None? {
        return NoKnight;
      }
      var validMoves := ValidKnightMoves(game.knight.value, game.visited, game.width, game.height);
      if Cell(row, col) !in validMoves {
        return InvalidMove;
      }
      game.HandleCellClick(Cell(row, col), now);
      outcome := Move(Cell(row, col));
    }

    /** highlightKeyboardSelection (controls.js:73-83). */
    method HighlightKeyboardSelection(validMoves: seq<Cell>, index: int)
      modifies this`selectedCell
      ensures selectedCell == Highlight(validMoves, index)
    {
      ClearKeyboardSelection();
      if 0 <= index < |validMoves| {
        var move := validMoves[index];
        selectedCell := Some(move);
      }
    }

    /** clearKeyboardSelection (controls.js:85-90). */
    method ClearKeyboardSelection()
      modifies this`selectedCell
      ensures selectedCell == None
    {
      selectedCell := None;
    }

    /** The arrow keys' branch of the keydown handler (controls.js:34-54). */
    method Navigation(key: Key, validMoves: seq<Cell>)
      requires key.IsArrow() && |validMoves| > 0
      modifies this`selectedIndex, this`selectedCell
      ensures selectedIndex == Navigate(key, old(selectedIndex), |validMoves|)
      ensures selectedCell == Highlight(validMoves, selectedIndex)
    {
      var cols := CeilSqrt(|validMoves|);
      if key == ArrowUp {
        selectedIndex := Max(0, selectedIndex - cols);
      } else if key == ArrowDown {
        selectedIndex := Min(|validMoves| - 1, selectedIndex + cols);
      } else if key == ArrowLeft {
        selectedIndex := Max(0, selectedIndex - 1);
      } else {
        selectedIndex := Min(|validMoves| - 1, selectedIndex + 1);
      }
      HighlightKeyboardSelection(validMoves, selectedIndex);
    }

    /** The keydown handler (controls.js:23-70). */
    method KeyDown(key: Key, now: int)
      requires game.analytics.Valid()
      modifies this`selectedIndex, this`selectedCell, game, game.analytics
      ensures var e := PressKey(Selection(old(selectedIndex), old(selectedCell)), key,
                                KeyboardMoves(controlMode, old(game.State())));
              && Selection(selectedIndex, selectedCell) == e.selection
              && game.State() == if e.click.Some? then GameRules.HandleCellClick(old(game.State()), e.click.value, now)
                                 else old(game.State())
      ensures old(game.Valid()) ==> game.Valid()
      ensures game.analytics.Valid()
    {
      if controlMode != Keyboard || game.knight.None? {
        return;
      }
      var validMoves := ValidKnightMoves(game.knight.value, game.visited, game.width, game.height);
      if |validMoves| == 0 {
        return;
      }
      match key
      case ArrowUp | ArrowDown | ArrowLeft | ArrowRight =>
        Navigation(key, validMoves);
      case Enter | Space =>
        if 0 <= selectedIndex < |validMoves| {
          var move := validMoves[selectedIndex];
          game.HandleCellClick(move, now);
          selectedIndex := 0;
        }
      case Escape =>
        ClearKeyboardSelection();
      case OtherKey =>
    }
  }
}
