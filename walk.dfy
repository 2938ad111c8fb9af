/** The knight's walk as the session stores it: the move history with its
    `from`/`to` cells, the path of entered cells and the visited set
    (game.js:270-304, 515-530). The lemmas here are the bookkeeping facts
    that a move and an undo preserve. */
module Walk {
  import opened Common
  import opened Knight

  /** One element of moveHistory (game.js:270-275): the move, the score before
      it and the number of visited cells before it. */
  datatype HistoryEntry = HistoryEntry(from: Cell, to: Cell, score: int, visitedCount: nat)

  /** Where the knight stands after the history, having started at `start`. */
  function Position(start: Cell, h: seq<HistoryEntry>): Cell {
    if |h| == 0 then start else h[|h| - 1].to
  }

  /** The cells entered, in order: pathSequence. */
  function Targets(h: seq<HistoryEntry>): (r: seq<Cell>)
    ensures |r| == |h| && forall i | 0 <= i < |h| :: r[i] == h[i].to
  {
    seq(|h|, i requires 0 <= i < |h| => h[i].to)
  }

  /** visitedCells: the start and every entered cell. */
  function VisitedOf(start: Cell, h: seq<HistoryEntry>): set<Cell> {
    {start} + set i | 0 <= i < |h| :: h[i].to
  }

  /** A knight's walk on the board: each move leaves from where the previous
      one arrived, is a knight step onto the board, enters a cell not visited
      before, and records the visited count before it. */
  ghost predicate IsWalk(start: Cell, h: seq<HistoryEntry>, width: int, height: int) {
    && InBoard(start, width, height)
    && (|h| > 0 ==> h[0].from == start)
    && (forall i | 1 <= i < |h| :: h[i].from == h[i - 1].to)
    && (forall i | 0 <= i < |h| ::
          && IsKnightStep(h[i].from, h[i].to)
          && InBoard(h[i].to, width, height)
          && h[i].visitedCount == i + 1
          && h[i].to != start)
    && (forall i, j | 0 <= i < j < |h| :: h[i].to != h[j].to)
  }

  /** The visited set of a walk holds one cell per move plus the start. */
  lemma {:induction false} VisitedCount(start: Cell, h: seq<HistoryEntry>, width: int, height: int)
    requires IsWalk(start, h, width, height)
    ensures |VisitedOf(start, h)| == |h| + 1
  {
    if |h| > 0 {
      var n := |h| - 1;
      RetractWalk(start, h, width, height);
      VisitedCount(start, h[..n], width, height);
      LastIsNew(start, h, width, height);
    }
  }

  lemma LastIsNew(start: Cell, h: seq<HistoryEntry>, width: int, height: int)
    requires IsWalk(start, h, width, height) && |h| > 0
    ensures h[|h| - 1].to !in VisitedOf(start, h[..|h| - 1])
  {
    var n := |h| - 1;
    forall i | 0 <= i < n ensures h[..n][i].to != h[n].to {
      assert h[..n][i] == h[i];
    }
  }

  lemma VisitedSnoc(start: Cell, h: seq<HistoryEntry>, e: HistoryEntry)
    ensures VisitedOf(start, h + [e]) == VisitedOf(start, h) + {e.to}
  {
    var h' := h + [e];
    assert h'[|h|].to == e.to;
    forall c | c in VisitedOf(start, h') ensures c in VisitedOf(start, h) + {e.to} {
      if c != start && c != e.to {
        var i :| 0 <= i < |h'| && h'[i].to == c;
        assert i < |h| && h[i].to == c;
      }
    }
    forall c | c in VisitedOf(start, h) ensures c in VisitedOf(start, h') {
      if c != start {
        var i :| 0 <= i < |h| && h[i].to == c;
        assert h'[i].to == c;
      }
    }
  }

  lemma PrefixIsWalk(start: Cell, h: seq<HistoryEntry>, width: int, height: int)
    requires IsWalk(start, h, width, height) && |h| > 0
    ensures IsWalk(start, h[..|h| - 1], width, height)
  {
    var p := h[..|h| - 1];
    forall i | 1 <= i < |p| ensures p[i].from == p[i - 1].to {
      assert p[i] == h[i] && p[i - 1] == h[i - 1];
    }
    forall i | 0 <= i < |p|
      ensures && IsKnightStep(p[i].from, p[i].to)
              && InBoard(p[i].to, width, height)
              && p[i].visitedCount == i + 1
              && p[i].to != start
    {
      assert p[i] == h[i];
    }
    forall i, j | 0 <= i < j < |p| ensures p[i].to != p[j].to {
      assert p[i] == h[i] && p[j] == h[j];
    }
  }

  /** A valid knight move from the current position extends the walk; the
      visited set gains exactly the target. */
  lemma ExtendWalk(start: Cell, h: seq<HistoryEntry>, width: int, height: int, e: HistoryEntry)
    requires IsWalk(start, h, width, height)
    requires e.from == Position(start, h) && e.visitedCount == |h| + 1
    requires IsKnightStep(e.from, e.to) && InBoard(e.to, width, height) && e.to !in VisitedOf(start, h)
    ensures IsWalk(start, h + [e], width, height)
    ensures VisitedOf(start, h + [e]) == VisitedOf(start, h) + {e.to}
    ensures Targets(h + [e]) == Targets(h) + [e.to]
    ensures Position(start, h + [e]) == e.to
  {
    VisitedSnoc(start, h, e);
    var h' := h + [e];
    forall i | 0 <= i < |h| ensures h[i].to != e.to {
      assert h[i].to in VisitedOf(start, h);
    }
    assert forall i | 0 <= i < |h| :: h'[i] == h[i];
  }

  /** Undoing the last move: the rest is still a walk, the knight is back on
      the move's `from` cell, and the visited set loses exactly its `to`. */
  lemma RetractWalk(start: Cell, h: seq<HistoryEntry>, width: int, height: int)
    requires IsWalk(start, h, width, height) && |h| > 0
    ensures var n := |h| - 1;
            && IsWalk(start, h[..n], width, height)
            && Position(start, h[..n]) == h[n].from
            && VisitedOf(start, h[..n]) == VisitedOf(start, h) - {h[n].to}
            && Targets(h[..n]) == Targets(h)[..n]
  {
    var n := |h| - 1;
    PrefixIsWalk(start, h, width, height);
    VisitedSnoc(start, h[..n], h[n]);
    assert h[..n] + [h[n]] == h;
    LastIsNew(start, h, width, height);
    if n > 0 {
      assert h[..n][n - 1] == h[n - 1];
    }
  }

  /** After an undo the knight can always go back where it came from, so the
      stuck check of highlightAvailableMoves never fires then. */
  lemma RetractLeavesMove(start: Cell, h: seq<HistoryEntry>, width: int, height: int)
    requires IsWalk(start, h, width, height) && |h| > 0
    ensures var n := |h| - 1;
            h[n].to in ValidKnightMoves(h[n].from, VisitedOf(start, h[..n]), width, height)
  {
    RetractWalk(start, h, width, height);
  }
}
