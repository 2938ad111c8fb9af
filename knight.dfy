/** The pure rules of a session: knight-move legality, the score formula, the
    number of items placed and the clock display (game.js). */
module Knight {
  import opened Common
  import opened Text

  /** The eight knight offsets as (row change, column change), in the order the
      source lists them (game.js:180-189). */
  const Steps: seq<(int, int)> := [(-2, -1), (-2, 1), (-1, -2), (-1, 2), (1, -2), (1, 2), (2, -1), (2, 1)]

  function Abs(x: int): nat {
    if x < 0 then -x else x
  }

  function Max(a: int, b: int): int {
    if a >= b then a else b
  }

  function Min(a: int, b: int): int {
    if a <= b then a else b
  }

  /** b is one knight move away from a. */
  predicate IsKnightStep(a: Cell, b: Cell) {
    var dr, dc := Abs(b.row - a.row), Abs(b.col - a.col);
    (dr == 1 && dc == 2) || (dr == 2 && dc == 1)
  }

  /** The cell reached from pos by the k-th offset. */
  function Target(pos: Cell, k: nat): Cell
    requires k < 8
  {
    Cell(pos.row + Steps[k].0, pos.col + Steps[k].1)
  }

  /** The rank, among the eight offsets, of the offset leading from a to b. */
  function StepIndex(a: Cell, b: Cell): (k: nat)
    requires IsKnightStep(a, b)
    ensures k < 8 && Target(a, k) == b
  {
    var dr, dc := b.row - a.row, b.col - a.col;
    if dr == -2 then (if dc == -1 then 0 else 1)
    else if dr == -1 then (if dc == -2 then 2 else 3)
    else if dr == 1 then (if dc == -2 then 4 else 5)
    else (if dc == -1 then 6 else 7)
  }

  /** Every offset is a knight move, and its rank is its position in the list. */
  lemma TargetIsStep(pos: Cell, k: nat)
    requires k < 8
    ensures IsKnightStep(pos, Target(pos, k)) && StepIndex(pos, Target(pos, k)) == k
  {
  }

  /** A cell the knight may enter: on the board and not yet visited. */
  predicate FreeCell(c: Cell, visited: set<Cell>, width: int, height: int) {
    InBoard(c, width, height) && c !in visited
  }

  /** The free targets of offsets k..7, in offset order. */
  function MovesFrom(pos: Cell, visited: set<Cell>, width: int, height: int, k: nat): (r: seq<Cell>)
    requires k <= 8
    ensures |r| <= 8 - k
    ensures forall c | c in r :: IsKnightStep(pos, c) && FreeCell(c, visited, width, height) && k <= StepIndex(pos, c)
    ensures forall i, j | 0 <= i < j < |r| :: StepIndex(pos, r[i]) < StepIndex(pos, r[j])
    decreases 8 - k
  {
    if k == 8 then []
    else
      var t := Target(pos, k);
      TargetIsStep(pos, k);
      var rest := MovesFrom(pos, visited, width, height, k + 1);
      if FreeCell(t, visited, width, height) then [t] + rest else rest
  }

  lemma {:induction false} MovesFromComplete(pos: Cell, visited: set<Cell>, width: int, height: int, k: nat, c: Cell)
    requires k <= 8 && IsKnightStep(pos, c) && FreeCell(c, visited, width, height) && k <= StepIndex(pos, c)
    ensures c in MovesFrom(pos, visited, width, height, k)
    decreases 8 - k
  {
    if StepIndex(pos, c) != k {
      MovesFromComplete(pos, visited, width, height, k + 1, c);
    }
  }

  lemma MovesFromCompleteAll(pos: Cell, visited: set<Cell>, width: int, height: int)
    ensures forall c | IsKnightStep(pos, c) && FreeCell(c, visited, width, height) :: c in MovesFrom(pos, visited, width, height, 0)
  {
    forall c | IsKnightStep(pos, c) && FreeCell(c, visited, width, height)
      ensures c in MovesFrom(pos, visited, width, height, 0)
    {
      MovesFromComplete(pos, visited, width, height, 0, c);
    }
  }

  /** getValidKnightMoves (game.js:179-198): exactly the knight moves from pos
      that stay on the board and avoid visited cells, at most eight, listed in
      offset order. */
  function ValidKnightMoves(pos: Cell, visited: set<Cell>, width: int, height: int): (r: seq<Cell>)
    ensures |r| <= 8
    ensures forall c :: c in r <==> IsKnightStep(pos, c) && InBoard(c, width, height) && c !in visited
    ensures forall i, j | 0 <= i < j < |r| :: StepIndex(pos, r[i]) < StepIndex(pos, r[j])
  {
    MovesFromCompleteAll(pos, visited, width, height);
    MovesFrom(pos, visited, width, height, 0)
  }

  /** No offset leads from pos to a free cell. */
  predicate NoMoves(pos: Cell, visited: set<Cell>, width: int, height: int) {
    forall k | 0 <= k < 8 :: !FreeCell(Target(pos, k), visited, width, height)
  }

  /** The list of getValidKnightMoves is empty exactly when no offset leads to
      a free cell, and a cell is in it exactly when it is a free cell one knight
      move away. */
  lemma ValidKnightMovesAgree(pos: Cell, visited: set<Cell>, width: int, height: int)
    ensures ValidKnightMoves(pos, visited, width, height) == [] <==> NoMoves(pos, visited, width, height)
  {
    var r := ValidKnightMoves(pos, visited, width, height);
    if r != [] {
      var k := StepIndex(pos, r[0]);
      assert Target(pos, k) == r[0];
    } else {
      forall k | 0 <= k < 8 ensures !FreeCell(Target(pos, k), visited, width, height) {
        TargetIsStep(pos, k);
        assert Target(pos, k) !in r;
      }
    }
  }

  /** updateScore (game.js:359-371): ten points per visited cell, a speed bonus
      in progressive mode, five points off per undo, never below zero. */
  function Score(visitedCount: int, elapsed: int, undos: int, mode: Mode): (s: int)
    ensures s >= 0
  {
    var speedBonus := if mode == Progressive then Max(0, 1000 - elapsed) else 0;
    Max(0, visitedCount * 10 + speedBonus - undos * 5)
  }

  /** Outside progressive mode the clock does not affect the score. */
  lemma ScoreIgnoresClock(visitedCount: int, e1: int, e2: int, undos: int, mode: Mode)
    requires mode != Progressive
    ensures Score(visitedCount, e1, undos, mode) == Score(visitedCount, e2, undos, mode)
  {
  }

  /** A move followed by its undo costs 15 points (10 for the cell given back,
      5 for the undo) unless the score is clamped at zero. */
  lemma ScoreUndoCost(visitedCount: int, elapsed: int, undos: int, mode: Mode)
    requires Score(visitedCount, elapsed, undos + 1, mode) > 0
    ensures Score(visitedCount, elapsed, undos + 1, mode) == Score(visitedCount + 1, elapsed, undos, mode) - 15
  {
  }

  /** More visited cells never lower the score; more undos never raise it. */
  lemma ScoreMonotone(v1: int, v2: int, elapsed: int, u1: int, u2: int, mode: Mode)
    requires v1 <= v2 && u2 <= u1
    ensures Score(v1, elapsed, u1, mode) <= Score(v2, elapsed, u2, mode)
  {
  }

  /** Math.floor(cells * 0.15): the number of items placeItems puts down
      (game.js:376-377), written with exact integers. */
  function ItemCount(cells: nat): (n: nat)
    ensures 100 * n <= 15 * cells < 100 * (n + 1)
    ensures cells > 0 ==> n < cells
  {
    (15 * cells) / 100
  }

  /** The `%` of JavaScript, whose result takes the sign of the dividend. */
  function JsRem(a: int, b: int): (r: int)
    requires b > 0
    ensures a >= 0 ==> r == a % b
    ensures -b < r < b
  {
    if a >= 0 then a % b else -((-a) % b)
  }

  /** "mm:ss" for a number of seconds (game.js:593-599, 721-724). */
  function ClockText(seconds: int): string {
    Pad2(IntToString(seconds / 60)) + ":" + Pad2(IntToString(JsRem(seconds, 60)))
  }

  /** formatTime (game.js:720-725): whole seconds of ms, shown as "mm:ss". */
  function FormatTime(ms: int): string {
    ClockText(ms / 1000)
  }

  /** Reads "mm:ss" back as minutes and seconds. */
  function ParseClock(s: string): Option<(nat, nat)> {
    match Cut(s, ':')
    case None => None
    case Some(parts) =>
      match (ParseNat(parts.0), ParseNat(parts.1))
      case (Some(m), Some(sec)) => Some((m, sec))
      case _ => None
  }

  lemma PaddedDigits(n: nat)
    ensures AllDigits(Pad2(NatToString(n))) && ':' !in Pad2(NatToString(n))
    ensures ParseNat(Pad2(NatToString(n))) == Some(n)
  {
    var p := Pad2(NatToString(n));
    ParsePad2(NatToString(n));
    ParseNatRoundTrip(n);
    assert AllDigits(p) by {
      forall k | 0 <= k < |p| ensures IsDigit(p[k]) {
        if k >= |p| - |NatToString(n)| {
          assert p[k] == p[|p| - |NatToString(n)|..][k - (|p| - |NatToString(n)|)];
        }
      }
    }
  }

  /** The clock shown for a non-negative time reads back as minutes and
      seconds below 60 that add up to the whole seconds elapsed. */
  lemma FormatTimeRoundTrip(ms: int)
    requires ms >= 0
    ensures var r := ParseClock(FormatTime(ms));
            r.Some? && r.value.0 * 60 + r.value.1 == ms / 1000 && r.value.1 < 60
  {
    var seconds := ms / 1000;
    var m, s := seconds / 60, seconds % 60;
    var a, b := Pad2(NatToString(m)), Pad2(NatToString(s));
    PaddedDigits(m);
    PaddedDigits(s);
    assert FormatTime(ms) == a + [':'] + b;
    CutJoin(a, ':', b);
  }
}
