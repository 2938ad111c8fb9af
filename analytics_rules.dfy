/** The post-game statistics of analytics.js as sequence algorithms: turn
    counting and the characteristic direction, the most frequent stuck cell,
    repeated path windows, the percentile rule and the solution style. */
module AnalyticsRules {
  import opened Common
  import opened Seqs
  import opened Sorting

  // ---------------------------------------------------------------- solution style

  datatype Style = Open | Closed | Balanced

  /** Closed < Balanced < Open. */
  function StyleRank(s: Style): nat {
    match s
    case Closed => 0
    case Balanced => 1
    case Open => 2
  }

  /** houses / boardSize² (analytics.js:89-91). The divisor uses the board
      width only. A zero width makes the ratio infinite in the source; None
      stands for that infinity. */
  function CoverageRatio(houses: nat, boardSize: int): (r: Option<real>)
    ensures boardSize != 0 ==> r.Some? && r.value >= 0.0
  {
    if boardSize == 0 then None
    else Some(houses as real / (boardSize * boardSize) as real)
  }

  /** The solution style (analytics.js:110-115): open needs coverage above 0.7
      and dispersion above 0.6, and is tested first; closed needs coverage
      below 0.5 or dispersion below 0.4; anything else is balanced. */
  function SolutionStyle(coverage: Option<real>, dispersion: real): Style {
    var wide := coverage.None? || coverage.value > 0.7;
    var narrow := coverage.Some? && coverage.value < 0.5;
    if wide && dispersion > 0.6 then Open
    else if narrow || dispersion < 0.4 then Closed
    else Balanced
  }

  /** Order on coverage values, with None as +infinity. */
  predicate CoverageLe(a: Option<real>, b: Option<real>) {
    b.None? || (a.Some? && a.value <= b.value)
  }

  /** Exploring more of the board, or more widely, never makes the style more
      focused: the style is monotone in both inputs. */
  lemma SolutionStyleMonotone(c1: Option<real>, d1: real, c2: Option<real>, d2: real)
    requires CoverageLe(c1, c2) && d1 <= d2
    ensures StyleRank(SolutionStyle(c1, d1)) <= StyleRank(SolutionStyle(c2, d2))
  {
  }

  /** Open requires both thresholds; closed and open exclude each other. */
  lemma SolutionStyleThresholds(coverage: real, dispersion: real)
    ensures SolutionStyle(Some(coverage), dispersion) == Open <==> coverage > 0.7 && dispersion > 0.6
    ensures SolutionStyle(Some(coverage), dispersion) == Closed <==>
              !(coverage > 0.7 && dispersion > 0.6) && (coverage < 0.5 || dispersion < 0.4)
  {
  }

  // ---------------------------------------------------------------- turns

  datatype Turn = TurnCw | TurnCcw | Straight

  predicate IsCw(t: Turn) {
    t == TurnCw
  }

  predicate IsCcw(t: Turn) {
    t == TurnCcw
  }

  /** atan2(0, 0) is 0, the angle of (1, 0). */
  function AngleVector(h: Offset): Offset {
    if h == Offset(0, 0) then Offset(1, 0) else h
  }

  /** The sign of the normalised angle difference between two headings
      (analytics.js:131-142), read off the integer cross product: a positive
      difference is counted clockwise, a negative one counterclockwise, none
      leaves both counters alone. For an exact reversal the float difference is
      +180 or -180 depending on rounding; `reversalCw` says which. */
  function TurnOf(prev: Offset, curr: Offset, reversalCw: (Offset, Offset) -> bool): Turn {
    var p, c := AngleVector(prev), AngleVector(curr);
    var cross := p.dx * c.dy - p.dy * c.dx;
    var dot := p.dx * c.dx + p.dy * c.dy;
    if cross > 0 then TurnCw
    else if cross < 0 then TurnCcw
    else if dot > 0 then Straight
    else if reversalCw(p, c) then TurnCw
    else TurnCcw
  }

  /** The turn at each consecutive pair of headings. */
  function Turns(hs: seq<Offset>, reversalCw: (Offset, Offset) -> bool): (r: seq<Turn>)
    ensures |r| == if |hs| == 0 then 0 else |hs| - 1
  {
    if |hs| < 2 then []
    else Turns(hs[..|hs| - 1], reversalCw) + [TurnOf(hs[|hs| - 2], hs[|hs| - 1], reversalCw)]
  }

  lemma {:induction false} CountDisjoint(s: seq<Turn>)
    ensures CountWhere(s, IsCw) + CountWhere(s, IsCcw) <= |s|
  {
    if |s| > 0 {
      CountDisjoint(s[..|s| - 1]);
    }
  }

  /** One more heading adds the turn at the new pair to the counters. */
  lemma TurnsStep(hs: seq<Offset>, i: nat, reversalCw: (Offset, Offset) -> bool)
    requires 1 <= i < |hs|
    ensures var t := TurnOf(hs[i - 1], hs[i], reversalCw);
            CountWhere(Turns(hs[..i + 1], reversalCw), IsCw) == CountWhere(Turns(hs[..i], reversalCw), IsCw) + (if t == TurnCw then 1 else 0) &&
            CountWhere(Turns(hs[..i + 1], reversalCw), IsCcw) == CountWhere(Turns(hs[..i], reversalCw), IsCcw) + (if t == TurnCcw then 1 else 0)
  {
    var t := TurnOf(hs[i - 1], hs[i], reversalCw);
    assert hs[..i + 1][..i] == hs[..i];
    assert Turns(hs[..i + 1], reversalCw) == Turns(hs[..i], reversalCw) + [t];
    CountWhereSnoc(Turns(hs[..i], reversalCw), t, IsCw);
    CountWhereSnoc(Turns(hs[..i], reversalCw), t, IsCcw);
  }

  /** The counting loop of analytics.js:127-142. */
  method CountTurns(hs: seq<Offset>, reversalCw: (Offset, Offset) -> bool) returns (cw: nat, ccw: nat)
    ensures cw == CountWhere(Turns(hs, reversalCw), IsCw)
    ensures ccw == CountWhere(Turns(hs, reversalCw), IsCcw)
    ensures cw + ccw <= if |hs| == 0 then 0 else |hs| - 1
  {
    cw, ccw := 0, 0;
    if |hs| == 0 {
      return;
    }
    var i := 1;
    while i < |hs|
      invariant 1 <= i <= |hs|
      invariant cw == CountWhere(Turns(hs[..i], reversalCw), IsCw)
      invariant ccw == CountWhere(Turns(hs[..i], reversalCw), IsCcw)
    {
      var t := TurnOf(hs[i - 1], hs[i], reversalCw);
      TurnsStep(hs, i, reversalCw);
      if t == TurnCw {
        cw := cw + 1;
      } else if t == TurnCcw {
        ccw := ccw + 1;
      }
      i := i + 1;
    }
    assert hs[..i] == hs;
    CountDisjoint(Turns(hs, reversalCw));
  }

  datatype Direction = Clockwise | Counterclockwise | Even

  /** analytics.js:144-149: clockwise when cw > 1.5·ccw, counterclockwise
      when ccw > 1.5·cw, balanced otherwise. */
  function CharacteristicDirection(cw: nat, ccw: nat): (d: Direction)
    ensures d == Clockwise ==> cw > 0 && cw > ccw
    ensures d == Counterclockwise ==> ccw > 0 && ccw > cw
    ensures cw == ccw ==> d == Even
  {
    if 2 * cw > 3 * ccw then Clockwise
    else if 2 * ccw > 3 * cw then Counterclockwise
    else Even
  }

  /** Swapping the two counters swaps the two directions. */
  lemma DirectionMirror(cw: nat, ccw: nat)
    ensures CharacteristicDirection(cw, ccw) == Clockwise <==> CharacteristicDirection(ccw, cw) == Counterclockwise
    ensures CharacteristicDirection(cw, ccw) == Even <==> CharacteristicDirection(ccw, cw) == Even
  {
  }

  // ---------------------------------------------------------------- most stuck position

  /** Object.keys(stuckCounts).reduce((a, b) => counts[a] > counts[b] ? a : b, null)
      (analytics.js:122-124): a later key replaces the best so far unless the
      best so far has a strictly greater count. */
  function Pick(keys: seq<Cell>, m: multiset<Cell>): (r: Option<Cell>)
    ensures r.None? <==> |keys| == 0
    ensures r.Some? ==> r.value in keys
  {
    if |keys| == 0 then None
    else
      var a := Pick(keys[..|keys| - 1], m);
      var b := keys[|keys| - 1];
      if a.Some? && m[a.value] > m[b] then a else Some(b)
  }

  /** The picked key has the largest count. */
  lemma {:induction false} PickIsMaximum(keys: seq<Cell>, m: multiset<Cell>)
    requires |keys| > 0
    ensures forall k | k in keys :: m[k] <= m[Pick(keys, m).value]
  {
    var n := |keys| - 1;
    if n > 0 {
      PickIsMaximum(keys[..n], m);
      forall k | k in keys ensures m[k] <= m[Pick(keys, m).value] {
        if k != keys[n] {
          assert k in keys[..n];
        }
      }
    } else {
      assert keys == [keys[0]];
    }
  }

  /** Keys listed after the picked one have strictly smaller counts: ties go
      to the later key. */
  lemma {:induction false} PickIsLast(keys: seq<Cell>, m: multiset<Cell>)
    requires |keys| > 0
    requires forall i, j | 0 <= i < j < |keys| :: keys[i] != keys[j]
    ensures var r := Pick(keys, m).value;
            forall j | FirstIndex(keys, r) < j < |keys| :: m[keys[j]] < m[r]
  {
    var n := |keys| - 1;
    var b := keys[n];
    var r := Pick(keys, m).value;
    if r == b {
      assert FirstIndex(keys, b) == n;
    } else {
      var init := keys[..n];
      var a := Pick(init, m).value;
      assert r == a && m[a] > m[b];
      PickIsLast(init, m);
      FirstIndexPrefix(keys, n, a);
    }
  }

  /** mostStuckPosition as a function of the recorded stuck cells: keys in
      order of first appearance, counted by multiplicity. */
  function MostStuck(stuck: seq<Cell>): Option<Cell> {
    Pick(Dedupe(stuck), multiset(stuck))
  }

  /** None exactly when nothing was recorded; otherwise a recorded cell of
      maximal count, and no cell first recorded after it has the same count. */
  lemma MostStuckSpec(stuck: seq<Cell>)
    ensures MostStuck(stuck).None? <==> |stuck| == 0
    ensures MostStuck(stuck).Some? ==>
              var r := MostStuck(stuck).value;
              r in stuck &&
              (forall k | k in stuck :: multiset(stuck)[k] <= multiset(stuck)[r]) &&
              (forall j | FirstIndex(Dedupe(stuck), r) < j < |Dedupe(stuck)| ::
                 multiset(stuck)[Dedupe(stuck)[j]] < multiset(stuck)[r])
  {
    if |stuck| > 0 {
      assert stuck[0] in Dedupe(stuck);
      PickIsMaximum(Dedupe(stuck), multiset(stuck));
      PickIsLast(Dedupe(stuck), multiset(stuck));
    }
  }

  /** The counting pass of analytics.js:118-121: a count per stuck cell and
      the cells in the order they were first counted. */
  method CountStuck(stuck: seq<Cell>) returns (counts: map<Cell, nat>, keys: seq<Cell>)
    ensures keys == Dedupe(stuck)
    ensures forall k | k in stuck :: k in counts
    ensures forall k | k in counts :: counts[k] == multiset(stuck)[k] && counts[k] > 0
  {
    counts, keys := map[], [];
    ghost var done: multiset<Cell> := multiset{};
    var i := 0;
    while i < |stuck|
      invariant 0 <= i <= |stuck|
      invariant keys == Dedupe(stuck[..i]) && done == multiset(stuck[..i])
      invariant forall k | k in done :: k in counts
      invariant forall k | k in counts :: counts[k] == done[k] && counts[k] > 0
    {
      var key := stuck[i];
      PrefixStep(stuck, i);
      DedupeSnoc(stuck[..i], key);
      CountStep(counts, done, key);
      if key !in counts {
        keys := keys + [key];
        counts := counts[key := 1];
      } else {
        counts := counts[key := counts[key] + 1];
      }
      done := done + multiset{key};
      i := i + 1;
    }
    assert stuck[..i] == stuck;
  }

  /** Counting one more occurrence of key keeps the counts equal to the
      multiplicities. */
  lemma CountStep(counts: map<Cell, nat>, done: multiset<Cell>, key: Cell)
    requires forall k | k in done :: k in counts
    requires forall k | k in counts :: counts[k] == done[k] && counts[k] > 0
    ensures var next := if key in counts then counts[key := counts[key] + 1] else counts[key := 1];
            && (forall k | k in done + multiset{key} :: k in next)
            && (forall k | k in next :: next[k] == (done + multiset{key})[k] && next[k] > 0)
  {
    if key !in counts {
      assert done[key] == 0;
    }
  }

  lemma PrefixStep(s: seq<Cell>, i: nat)
    requires i < |s|
    ensures s[..i + 1] == s[..i] + [s[i]]
    ensures multiset(s[..i + 1]) == multiset(s[..i]) + multiset{s[i]}
  {
    assert s[..i + 1] == s[..i] + [s[i]];
  }

  /** The reduce of analytics.js:122-124. */
  method ReduceStuck(keys: seq<Cell>, counts: map<Cell, nat>, m: multiset<Cell>) returns (best: Option<Cell>)
    requires forall k | k in keys :: k in counts && counts[k] == m[k]
    ensures best == Pick(keys, m)
  {
    best := None;
    var j := 0;
    while j < |keys|
      invariant 0 <= j <= |keys|
      invariant best == Pick(keys[..j], m)
      invariant best.Some? ==> best.value in keys
    {
      var b := keys[j];
      assert keys[..j + 1][..j] == keys[..j];
      if best.Some? && counts[best.value] > counts[b] {
      } else {
        best := Some(b);
      }
      j := j + 1;
    }
    assert keys[..j] == keys;
  }

  /** mostStuckPosition (analytics.js:117-124). */
  method MostStuckPosition(stuck: seq<Cell>) returns (best: Option<Cell>)
    ensures best == MostStuck(stuck)
  {
    var counts, keys := CountStuck(stuck);
    best := ReduceStuck(keys, counts, multiset(stuck));
  }

  // ---------------------------------------------------------------- repeated windows

  /** One entry of findRepeatedSequences: a window of the path, how many window
      positions hold it, and the window length. The source keys a window by its
      cells joined with "->"; for on-board cells that key is injective, so the
      cells stand for it. */
  datatype Repeat = Repeat(cells: seq<Cell>, count: nat, length: nat)

  /** The windows of length len, one per start position 0..|s|-len. */
  function Windows(s: seq<Cell>, len: nat): (w: seq<seq<Cell>>)
    ensures |w| == if |s| >= len then |s| - len + 1 else 0
    ensures forall i | 0 <= i < |w| :: w[i] == s[i..i + len]
  {
    if |s| < len then [] else seq(|s| - len + 1, i requires 0 <= i < |s| - len + 1 => s[i..i + len])
  }

  /** The entries the first loop pushes for the windows ws[..k]: each window
      with more than one occurrence in all, in position order. */
  function Candidates(ws: seq<seq<Cell>>, k: nat, len: nat): (r: seq<Repeat>)
    requires k <= |ws|
    ensures forall x | x in r :: x.count == multiset(ws)[x.cells] && x.count > 1 && x.length == len
  {
    if k == 0 then []
    else
      var w := ws[k - 1];
      var rest := Candidates(ws, k - 1, len);
      if multiset(ws)[w] > 1 then rest + [Repeat(w, multiset(ws)[w], len)] else rest
  }

  /** findRepeatedSequences (analytics.js:176-206) as a specification: the
      candidates with later repeats of the same window dropped. */
  function RepeatedSequences(s: seq<Cell>, len: nat): seq<Repeat> {
    var ws := Windows(s, len);
    Dedupe(Candidates(ws, |ws|, len))
  }

  lemma {:induction false} CandidatesComplete(ws: seq<seq<Cell>>, k: nat, len: nat, i: nat)
    requires i < k <= |ws| && multiset(ws)[ws[i]] > 1
    ensures Repeat(ws[i], multiset(ws)[ws[i]], len) in Candidates(ws, k, len)
  {
    if i < k - 1 {
      CandidatesComplete(ws, k - 1, len, i);
    }
  }

  /** Every entry is a window of the given length that occurs at more than
      one position, with its number of positions as count. */
  lemma RepeatedSequencesSound(s: seq<Cell>, len: nat)
    ensures forall x | x in RepeatedSequences(s, len) ::
              x.cells in Windows(s, len) && |x.cells| == len && x.length == len && x.count > 1 &&
              x.count == multiset(Windows(s, len))[x.cells]
  {
  }

  /** Every window that occurs at more than one position is listed. */
  lemma RepeatedSequencesComplete(s: seq<Cell>, len: nat)
    ensures var ws := Windows(s, len);
            forall i | 0 <= i < |ws| && multiset(ws)[ws[i]] > 1 ::
              Repeat(ws[i], multiset(ws)[ws[i]], len) in RepeatedSequences(s, len)
  {
    var ws := Windows(s, len);
    forall i | 0 <= i < |ws| && multiset(ws)[ws[i]] > 1
      ensures Repeat(ws[i], multiset(ws)[ws[i]], len) in RepeatedSequences(s, len)
    {
      CandidatesComplete(ws, |ws|, len, i);
    }
  }

  /** No window is listed twice. */
  lemma RepeatedSequencesDistinct(s: seq<Cell>, len: nat)
    ensures var r := RepeatedSequences(s, len);
            forall i, j | 0 <= i < j < |r| :: r[i].cells != r[j].cells
  {
    var ws := Windows(s, len);
    var c := Candidates(ws, |ws|, len);
    var r := RepeatedSequences(s, len);
    forall i, j | 0 <= i < j < |r| ensures r[i].cells != r[j].cells {
      assert r[i] in c && r[j] in c;
    }
  }

  /** Every candidate for the windows ws[..k] is one of those windows. */
  lemma {:induction false} CandidatesFrom(ws: seq<seq<Cell>>, k: nat, len: nat, x: Repeat)
    requires k <= |ws| && x in Candidates(ws, k, len)
    ensures x.cells in ws[..k] && x.cells in ws && FirstIndex(ws, x.cells) < k
  {
    var rest := Candidates(ws, k - 1, len);
    if x in rest {
      CandidatesFrom(ws, k - 1, len, x);
      assert ws[..k - 1] == ws[..k][..k - 1];
    } else {
      assert x.cells == ws[k - 1] && ws[..k][k - 1] == ws[k - 1];
    }
    FirstIndexPrefix(ws, k, x.cells);
  }

  /** A window that first occurs at position k - 1 is not among the
      candidates of the earlier windows, which a candidate for it would be. */
  lemma FirstAtEnd(ws: seq<seq<Cell>>, k: nat, len: nat)
    requires 0 < k <= |ws| && multiset(ws)[ws[k - 1]] > 1
    requires Repeat(ws[k - 1], multiset(ws)[ws[k - 1]], len) !in Candidates(ws, k - 1, len)
    ensures FirstIndex(ws, ws[k - 1]) == k - 1
  {
    var w := ws[k - 1];
    var p := FirstIndex(ws, w);
    if p < k - 1 {
      CandidatesComplete(ws, k - 1, len, p);
    }
  }

  /** An earlier candidate's window occurs before a window first seen at
      position k - 1. */
  lemma CandidatesBeforeLast(ws: seq<seq<Cell>>, k: nat, len: nat, x: Repeat)
    requires 0 < k <= |ws| && x in Candidates(ws, k - 1, len) && multiset(ws)[ws[k - 1]] > 1
    requires Repeat(ws[k - 1], multiset(ws)[ws[k - 1]], len) !in Candidates(ws, k - 1, len)
    ensures x.cells in ws && FirstIndex(ws, x.cells) < FirstIndex(ws, ws[k - 1])
  {
    CandidatesFrom(ws, k - 1, len, x);
    FirstAtEnd(ws, k, len);
  }

  /** The candidates come in position order: of two entries, the one listed
      first has the window that occurs first in the path. */
  lemma {:induction false} CandidatesOrder(ws: seq<seq<Cell>>, k: nat, len: nat, x: Repeat, y: Repeat)
    requires k <= |ws| && x in Candidates(ws, k, len) && y in Candidates(ws, k, len)
    requires FirstIndex(Candidates(ws, k, len), x) < FirstIndex(Candidates(ws, k, len), y)
    ensures x.cells in ws && y.cells in ws && FirstIndex(ws, x.cells) < FirstIndex(ws, y.cells)
  {
    var c := Candidates(ws, k, len);
    var rest := Candidates(ws, k - 1, len);
    var w := ws[k - 1];
    if c == rest {
      CandidatesOrder(ws, k - 1, len, x, y);
    } else {
      var e := Repeat(w, multiset(ws)[w], len);
      assert c == rest + [e];
      FirstIndexSnoc(rest, e, x);
      FirstIndexSnoc(rest, e, y);
      if y in rest {
        CandidatesOrder(ws, k - 1, len, x, y);
      } else {
        CandidatesBeforeLast(ws, k, len, x);
      }
    }
  }

  /** The entries are listed in the order in which their windows first
      occur in the path. */
  lemma RepeatedSequencesOrder(s: seq<Cell>, len: nat)
    ensures var ws := Windows(s, len);
            var r := RepeatedSequences(s, len);
            forall i, j | 0 <= i < j < |r| ::
              r[i].cells in ws && r[j].cells in ws && FirstIndex(ws, r[i].cells) < FirstIndex(ws, r[j].cells)
  {
    var ws := Windows(s, len);
    var c := Candidates(ws, |ws|, len);
    var r := RepeatedSequences(s, len);
    DedupeFirstOccurrenceOrder(c);
    forall i, j | 0 <= i < j < |r|
      ensures r[i].cells in ws && r[j].cells in ws && FirstIndex(ws, r[i].cells) < FirstIndex(ws, r[j].cells)
    {
      assert r[i] in c && r[j] in c;
      CandidatesOrder(ws, |ws|, len, r[i], r[j]);
    }
  }

  /** The inner counting loop of analytics.js:183-188. */
  method CountWindow(ws: seq<seq<Cell>>, w: seq<Cell>) returns (count: nat)
    ensures count == multiset(ws)[w]
  {
    count := 0;
    var j := 0;
    while j < |ws|
      invariant 0 <= j <= |ws|
      invariant count == multiset(ws[..j])[w]
    {
      assert ws[..j + 1] == ws[..j] + [ws[j]];
      if ws[j] == w {
        count := count + 1;
      }
      j := j + 1;
    }
    assert ws[..j] == ws;
  }

  /** The outer loop of analytics.js:180-194. */
  method CollectRepeats(ws: seq<seq<Cell>>, len: nat) returns (found: seq<Repeat>)
    ensures found == Candidates(ws, |ws|, len)
  {
    found := [];
    var i := 0;
    while i < |ws|
      invariant 0 <= i <= |ws|
      invariant found == Candidates(ws, i, len)
    {
      var count := CountWindow(ws, ws[i]);
      if count > 1 {
        found := found + [Repeat(ws[i], count, len)];
      }
      i := i + 1;
    }
  }

  /** The windows of the kept entries. */
  function CellsOf(unique: seq<Repeat>): set<seq<Cell>> {
    if |unique| == 0 then {} else CellsOf(unique[..|unique| - 1]) + {unique[|unique| - 1].cells}
  }

  /** While entries with the same window are equal, a window is among those
      of the kept entries exactly when its entry has been kept. */
  lemma {:induction false} SeenIffKept(found: seq<Repeat>, unique: seq<Repeat>, x: Repeat)
    requires forall i, j | 0 <= i < |found| && 0 <= j < |found| && found[i].cells == found[j].cells :: found[i] == found[j]
    requires x in found && forall y | y in unique :: y in found
    ensures x.cells in CellsOf(unique) <==> x in unique
  {
    if |unique| > 0 {
      var n := |unique| - 1;
      var p := unique[..n];
      assert unique == p + [unique[n]];
      SeenIffKept(found, p, x);
      if x.cells == unique[n].cells {
        assert unique[n] in unique;
        var a :| 0 <= a < |found| && found[a] == x;
        var b :| 0 <= b < |found| && found[b] == unique[n];
        assert x == unique[n];
      }
    }
  }

  /** Appending an entry adds its window. */
  lemma CellsOfSnoc(unique: seq<Repeat>, x: Repeat)
    ensures CellsOf(unique + [x]) == CellsOf(unique) + {x.cells}
  {
    assert (unique + [x])[..|unique|] == unique;
  }

  /** One step of the `seen` pass: the next entry is kept exactly when its
      window has not been seen, and the pass goes on computing Dedupe. */
  lemma DropStep(found: seq<Repeat>, k: nat, unique: seq<Repeat>)
    requires k < |found| && unique == Dedupe(found[..k])
    requires forall i, j | 0 <= i < |found| && 0 <= j < |found| && found[i].cells == found[j].cells :: found[i] == found[j]
    ensures Dedupe(found[..k + 1]) == if found[k].cells in CellsOf(unique) then unique else unique + [found[k]]
  {
    var x := found[k];
    assert found[..k + 1] == found[..k] + [x];
    DedupeSnoc(found[..k], x);
    forall y | y in unique ensures y in found {
      assert y in found[..k];
    }
    SeenIffKept(found, unique, x);
  }

  /** After the step, the seen windows are the windows of the kept entries. */
  lemma SeenAfter(unique: seq<Repeat>, x: Repeat)
    ensures CellsOf(if x.cells in CellsOf(unique) then unique else unique + [x]) == CellsOf(unique) + {x.cells}
  {
    CellsOfSnoc(unique, x);
  }

  /** The `seen` pass of analytics.js:197-204, keyed by the window. Entries
      with the same window are equal here, so this is Dedupe. */
  method DropRepeatedWindows(found: seq<Repeat>) returns (unique: seq<Repeat>)
    requires forall i, j | 0 <= i < |found| && 0 <= j < |found| && found[i].cells == found[j].cells :: found[i] == found[j]
    ensures unique == Dedupe(found)
  {
    unique := [];
    var seen: set<seq<Cell>> := {};
    var k := 0;
    while k < |found|
      invariant 0 <= k <= |found|
      invariant unique == Dedupe(found[..k]) && seen == CellsOf(unique)
    {
      DropStep(found, k, unique);
      var x := found[k];
      SeenAfter(unique, x);
      if x.cells !in seen {
        unique := unique + [x];
      }
      seen := seen + {x.cells};
      k := k + 1;
    }
    assert found[..k] == found;
  }

  /** findRepeatedSequences (analytics.js:176-206). */
  method FindRepeatedSequences(s: seq<Cell>, len: nat) returns (unique: seq<Repeat>)
    ensures unique == RepeatedSequences(s, len)
  {
    var ws := Windows(s, len);
    var found := CollectRepeats(ws, len);
    unique := DropRepeatedWindows(found);
  }

  // ---------------------------------------------------------------- percentile

  predicate AscLe(a: real, b: real) {
    a <= b
  }

  predicate DescLe(a: real, b: real) {
    a >= b
  }

  lemma RealOrders()
    ensures TotalPreorder(AscLe) && TotalPreorder(DescLe)
  {
  }

  /** The position of the first element satisfying p. */
  function FindIndex(s: seq<real>, p: real -> bool): (r: Option<nat>)
    ensures r.Some? ==> r.value < |s| && p(s[r.value])
    ensures r.Some? ==> forall j | 0 <= j < r.value :: !p(s[j])
    ensures r.None? ==> forall j | 0 <= j < |s| :: !p(s[j])
  {
    if |s| == 0 then None
    else if p(s[0]) then Some(0)
    else
      match FindIndex(s[1..], p)
      case None => None
      case Some(k) => Some(k + 1)
  }

  /** The sample sorted with `(a, b) => a - b`, or `(a, b) => b - a` when
      `reverse`. */
  function SortedSample(sample: seq<real>, reverse: bool): (r: seq<real>)
    ensures multiset(r) == multiset(sample) && |r| == |sample|
    ensures SortedBy(r, if reverse then DescLe else AscLe)
  {
    RealOrders();
    Sort(sample, if reverse then DescLe else AscLe)
  }

  /** The element the percentile looks for: at least the value, or at most it
      when `reverse`. */
  function Reaches(value: real, reverse: bool): real -> bool {
    v => !IsAhead(value, reverse, v)
  }

  /** calculatePercentile (analytics.js:247-252): 50 for an empty sample;
      otherwise sort ascending (descending when `reverse`), find the first
      element at least (at most) the value, and return its index as a
      percentage of the sample size, or 100 when there is none. */
  function CalculatePercentile(value: real, sample: seq<real>, reverse: bool): real {
    if |sample| == 0 then 50.0
    else
      var sorted := SortedSample(sample, reverse);
      match FindIndex(sorted, Reaches(value, reverse))
      case None => 100.0
      case Some(i) => i as real / |sorted| as real * 100.0
  }

  /** v ranks strictly ahead of `value`: below it, or above it when `reverse`. */
  predicate IsAhead(value: real, reverse: bool, v: real) {
    if reverse then v > value else v < value
  }

  function Ahead(value: real, reverse: bool): real -> bool {
    v => IsAhead(value, reverse, v)
  }

  /** When the elements ahead of the value form a prefix, they number its length. */
  lemma {:induction false} SortedPrefixCount(sorted: seq<real>, value: real, reverse: bool, i: nat)
    requires i <= |sorted|
    requires forall j | 0 <= j < i :: Ahead(value, reverse)(sorted[j])
    requires forall j | i <= j < |sorted| :: !Ahead(value, reverse)(sorted[j])
    ensures CountWhere(sorted, Ahead(value, reverse)) == i
    decreases |sorted|
  {
    if |sorted| > 0 {
      var n := |sorted| - 1;
      if i == |sorted| {
        SortedPrefixCount(sorted[..n], value, reverse, n);
      } else {
        SortedPrefixCount(sorted[..n], value, reverse, i);
      }
    }
  }

  /** In a sorted sequence, nothing after an element that is not ahead of the
      value is ahead of it. */
  lemma SortedTailNotAhead(sorted: seq<real>, value: real, reverse: bool, i: nat)
    requires SortedBy(sorted, if reverse then DescLe else AscLe)
    requires i < |sorted| && Reaches(value, reverse)(sorted[i])
    ensures forall j | i <= j < |sorted| :: !Ahead(value, reverse)(sorted[j])
  {
    var le := if reverse then DescLe else AscLe;
    forall j | i < j < |sorted| ensures !Ahead(value, reverse)(sorted[j]) {
      assert le(sorted[i], sorted[j]);
    }
  }

  /** The index the percentile reads is the number of elements ahead. */
  lemma PercentileIndex(value: real, sample: seq<real>, reverse: bool, i: nat)
    requires FindIndex(SortedSample(sample, reverse), Reaches(value, reverse)) == Some(i)
    ensures CountWhere(sample, Ahead(value, reverse)) == i
  {
    var sorted := SortedSample(sample, reverse);
    CountWherePermutation(sample, sorted, Ahead(value, reverse));
    SortedTailNotAhead(sorted, value, reverse, i);
    SortedPrefixCount(sorted, value, reverse, i);
  }

  /** With no element reaching the value, every element is ahead of it. */
  lemma AllAhead(sorted: seq<real>, value: real, reverse: bool)
    requires FindIndex(sorted, Reaches(value, reverse)).None?
    ensures CountWhere(sorted, Ahead(value, reverse)) == |sorted|
  {
    forall j | 0 <= j < |sorted| ensures Ahead(value, reverse)(sorted[j]) {
      assert !Reaches(value, reverse)(sorted[j]);
    }
    SortedPrefixCount(sorted, value, reverse, |sorted|);
  }

  lemma PercentileNoIndex(value: real, sample: seq<real>, reverse: bool)
    requires FindIndex(SortedSample(sample, reverse), Reaches(value, reverse)).None?
    ensures CountWhere(sample, Ahead(value, reverse)) == |sample|
  {
    var sorted := SortedSample(sample, reverse);
    AllAhead(sorted, value, reverse);
    CountWherePermutation(sample, sorted, Ahead(value, reverse));
  }

  /** The percentile depends only on how many sample elements rank strictly
      ahead of the value: it is that count as a percentage of the sample when
      some element does not rank ahead, and 100 otherwise; in the first case it
      lies in [0, 100). The order of the sample does not matter. */
  lemma PercentileCounts(value: real, sample: seq<real>, reverse: bool)
    requires |sample| > 0
    ensures var ahead := CountWhere(sample, Ahead(value, reverse));
            var p := CalculatePercentile(value, sample, reverse);
            (ahead == |sample| ==> p == 100.0) &&
            (ahead < |sample| ==> p == ahead as real / |sample| as real * 100.0 && 0.0 <= p < 100.0)
  {
    var ahead := CountWhere(sample, Ahead(value, reverse));
    match FindIndex(SortedSample(sample, reverse), Reaches(value, reverse))
    case None =>
      PercentileNoIndex(value, sample, reverse);
    case Some(i) =>
      PercentileIndex(value, sample, reverse, i);
      FractionBelowOne(ahead, |sample|);
  }

  lemma FractionBelowOne(a: nat, n: nat)
    requires a < n
    ensures 0.0 <= a as real / n as real * 100.0 < 100.0
  {
    assert a as real / n as real < 1.0;
  }
}
