/** Board items (game.js:374-474): where placeItems puts them, how many mines
    remain, and what stepping on each kind does to the session's counters. */
module Items {
  import opened Common
  import opened Knight

  /** The counters an item can change. */
  datatype Effects = Effects(
    score: int,
    lives: int,
    minesHit: nat,
    regressiveTime: int,
    itemsCollected: nat,
    massageActive: bool)

  /** handleItem's switch (game.js:429-471), before any endGame it triggers:
      every item counts as collected; food +50 and horseshoe +100 points, a
      hole -20; a clock +30 s and sand -10 s, both in regressive mode only; a
      mine -100 points, one more mine hit, one life less and, in regressive
      mode, -20 s; the massage cell switches its effect on. */
  function ItemEffect(e: Effects, kind: ItemKind, mode: Mode): Effects {
    var e1 := e.(itemsCollected := e.itemsCollected + 1);
    match kind
    case Food => e1.(score := e1.score + 50)
    case Clock => if mode == Regressive then e1.(regressiveTime := e1.regressiveTime + 30) else e1
    case Horseshoe => e1.(score := e1.score + 100)
    case Sand => if mode == Regressive then e1.(regressiveTime := e1.regressiveTime - 10) else e1
    case Hole => e1.(score := e1.score - 20)
    case Mine =>
      e1.(score := e1.score - 100, minesHit := e1.minesHit + 1, lives := e1.lives - 1,
          regressiveTime := if mode == Regressive then e1.regressiveTime - 20 else e1.regressiveTime)
    case Massage => e1.(massageActive := true)
  }

  /** Every item is counted; only a mine costs a life or counts as a hit, and
      each does so by exactly one; outside regressive mode no item touches
      the countdown. */
  lemma ItemEffectSpec(e: Effects, kind: ItemKind, mode: Mode)
    ensures var r := ItemEffect(e, kind, mode);
            && r.itemsCollected == e.itemsCollected + 1
            && (kind == Mine <==> r.lives == e.lives - 1)
            && (kind != Mine ==> r.lives == e.lives && r.minesHit == e.minesHit)
            && (kind == Mine ==> r.minesHit == e.minesHit + 1)
            && r.minesHit - e.minesHit == e.lives - r.lives
            && (mode != Regressive ==> r.regressiveTime == e.regressiveTime)
            && (r.massageActive <==> e.massageActive || kind == Massage)
  {
  }

  /** Mines still lying on the board. */
  function MinesIn(items: map<Cell, ItemKind>): nat {
    |set c | c in items && items[c] == Mine|
  }

  /** Taking a cell off the board removes one mine exactly when it held one. */
  lemma MinesInRemove(items: map<Cell, ItemKind>, c: Cell)
    ensures MinesIn(items - {c}) == MinesIn(items) - (if c in items && items[c] == Mine then 1 else 0)
  {
    var m := items - {c};
    var s := set x | x in items && items[x] == Mine;
    var s' := set x | x in m && m[x] == Mine;
    assert s' == s - {c};
  }

  /** Putting an item on a free cell adds one mine exactly when it is one. */
  lemma MinesInAdd(items: map<Cell, ItemKind>, c: Cell, k: ItemKind)
    requires c !in items
    ensures MinesIn(items[c := k]) == MinesIn(items) + (if k == Mine then 1 else 0)
  {
    var m := items[c := k];
    var s := set x | x in items && items[x] == Mine;
    var s' := set x | x in m && m[x] == Mine;
    if k == Mine {
      assert s' == s + {c};
      assert c !in s;
    } else {
      assert s' == s;
    }
  }

  /** What the random loop of placeItems draws is a valid outcome: ⌊15% of
      the cells⌋ items (game.js:376-377), each on the board, on distinct cells
      and never on the knight's cell (the do-while exit test at game.js:387-390). */
  predicate ValidPlacement(choices: seq<(Cell, ItemKind)>, knight: Cell, width: int, height: int) {
    && width >= 1 && height >= 1
    && |choices| == ItemCount(width * height)
    && (forall i | 0 <= i < |choices| :: InBoard(choices[i].0, width, height) && choices[i].0 != knight)
    && (forall i, j | 0 <= i < j < |choices| :: choices[i].0 != choices[j].0)
  }

  /** The items map after placing the choices in order. */
  function ItemsOf(choices: seq<(Cell, ItemKind)>): map<Cell, ItemKind> {
    if |choices| == 0 then map[]
    else
      var n := |choices| - 1;
      ItemsOf(choices[..n])[choices[n].0 := choices[n].1]
  }

  /** The mines among the choices. */
  function MinesChosen(choices: seq<(Cell, ItemKind)>): nat {
    if |choices| == 0 then 0
    else
      var n := |choices| - 1;
      MinesChosen(choices[..n]) + (if choices[n].1 == Mine then 1 else 0)
  }

  /** The items map holds exactly the chosen cells, each with its chosen kind;
      with distinct cells it has one entry per choice and as many mines as
      were chosen. */
  lemma {:induction false} ItemsOfSpec(choices: seq<(Cell, ItemKind)>)
    requires forall i, j | 0 <= i < j < |choices| :: choices[i].0 != choices[j].0
    ensures forall c :: c in ItemsOf(choices) <==> exists i | 0 <= i < |choices| :: choices[i].0 == c
    ensures forall i | 0 <= i < |choices| :: ItemsOf(choices)[choices[i].0] == choices[i].1
    ensures |ItemsOf(choices)| == |choices|
    ensures MinesIn(ItemsOf(choices)) == MinesChosen(choices)
  {
    if |choices| > 0 {
      var n := |choices| - 1;
      var p := choices[..n];
      ItemsOfSpec(p);
      ItemsOfStep(choices);
      MinesInAdd(ItemsOf(p), choices[n].0, choices[n].1);
    }
  }

  lemma ItemsOfStep(choices: seq<(Cell, ItemKind)>)
    requires |choices| > 0
    requires forall i, j | 0 <= i < j < |choices| :: choices[i].0 != choices[j].0
    requires var p := choices[..|choices| - 1];
             forall c :: c in ItemsOf(p) <==> exists i | 0 <= i < |p| :: p[i].0 == c
    requires var p := choices[..|choices| - 1];
             forall i | 0 <= i < |p| :: ItemsOf(p)[p[i].0] == p[i].1
    ensures choices[|choices| - 1].0 !in ItemsOf(choices[..|choices| - 1])
    ensures forall c :: c in ItemsOf(choices) <==> exists i | 0 <= i < |choices| :: choices[i].0 == c
    ensures forall i | 0 <= i < |choices| :: ItemsOf(choices)[choices[i].0] == choices[i].1
  {
    var n := |choices| - 1;
    var p := choices[..n];
    forall i | 0 <= i < |p| ensures p[i] == choices[i] && p[i].0 != choices[n].0 {
    }
    forall c | c in ItemsOf(choices) ensures exists i | 0 <= i < |choices| :: choices[i].0 == c {
      if c != choices[n].0 {
        var i :| 0 <= i < |p| && p[i].0 == c;
        assert choices[i].0 == c;
      }
    }
    forall i | 0 <= i < |choices| ensures choices[i].0 in ItemsOf(choices) {
      if i < n {
        assert p[i].0 == choices[i].0;
      }
    }
  }
}
