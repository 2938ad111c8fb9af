/** Shared value types of the puzzle: optional values, board cells, game modes and item kinds. */
module Common {

  /** A value that may be absent (the source's `null`/`undefined`). */
  datatype Option<T> = None | Some(value: T) {
    function GetOr(default: T): T {
      match this
      case Some(v) => v
      case None => default
    }
  }

  /** A board cell. The source keys cells by the string "row,col"; for integer
      coordinates that key is injective, so the pair itself is used here. */
  datatype Cell = Cell(row: int, col: int)

  /** A move offset: column change and row change (dx, dy). */
  datatype Offset = Offset(dx: int, dy: int)

  /** The three timer modes of a session (`gameMode`). */
  datatype Mode = Free | Progressive | Regressive

  /** The mode as the source spells it, used in ranking category keys. */
  function ModeName(m: Mode): string {
    match m
    case Free => "free"
    case Progressive => "progressive"
    case Regressive => "regressive"
  }

  /** The seven item types that placeItems draws from (game.js:375). */
  datatype ItemKind = Food | Clock | Horseshoe | Sand | Hole | Mine | Massage

  /** True when the cell lies on a board of the given width and height. */
  predicate InBoard(c: Cell, width: int, height: int) {
    0 <= c.row < height && 0 <= c.col < width
  }
}
