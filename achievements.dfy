/** The achievement rules (achievements.js): ten badges, each earned by a
    finished game that passes its test, and unlocked through the store, which
    reports whether the badge is new to the player. The notification pop-up
    and the badges' display names, descriptions and icons are not modelled. */
module Achievements {
  import opened Common
  import opened Seqs
  import opened Records
  import opened Storage

  datatype Badge =
    | FirstMove | Explorer | Master | Speedster | Collector
    | Survivor | Perfect | Marathon | Strategist | Legend
  {
    /** The badge's key in the table and in the stored list. */
    function Id(): string {
      match this
      case FirstMove => "firstMove"
      case Explorer => "explorer"
      case Master => "master"
      case Speedster => "speedster"
      case Collector => "collector"
      case Survivor => "survivor"
      case Perfect => "perfect"
      case Marathon => "marathon"
      case Strategist => "strategist"
      case Legend => "legend"
    }
  }

  /** The table lookup `this.achievements[id]`: unknown keys give nothing. */
  function BadgeOf(id: string): (r: Option<Badge>)
    ensures r.Some? ==> r.value.Id() == id
  {
    if id == "firstMove" then Some(FirstMove)
    else if id == "explorer" then Some(Explorer)
    else if id == "master" then Some(Master)
    else if id == "speedster" then Some(Speedster)
    else if id == "collector" then Some(Collector)
    else if id == "survivor" then Some(Survivor)
    else if id == "perfect" then Some(Perfect)
    else if id == "marathon" then Some(Marathon)
    else if id == "strategist" then Some(Strategist)
    else if id == "legend" then Some(Legend)
    else None
  }

  /** Every badge is found under its own key, so no two badges share one. */
  lemma BadgeOfId(b: Badge)
    ensures BadgeOf(b.Id()) == Some(b)
  {
  }

  /** The table in its declaration order, which getAchievements lists. */
  const AllBadges: seq<Badge> :=
    [FirstMove, Explorer, Master, Speedster, Collector, Survivor, Perfect, Marathon, Strategist, Legend]

  /** The order in which checkAchievements tests the badges. */
  const CheckOrder: seq<Badge> :=
    [FirstMove, Explorer, Master, Speedster, Collector, Survivor, Perfect, Strategist, Legend, Marathon]

  /** The games among history records: the records endGame stores itself, not
      the saved paths. */
  function GamesIn(history: seq<HistoryRecord>): nat {
    CountWhere(history, (h: HistoryRecord) => h.GameEntry?)
  }

  /** Each badge's test as written (achievements.js:85-134), given the
      player's stored history. speedster reads a `totalTime` that no game
      record carries, and marathon counts every history record, of which each
      finished game leaves two. */
  predicate EarnedAsWritten(b: Badge, game: GameRecord, history: seq<HistoryRecord>) {
    match b
    case Speedster => game.totalTime.Some? && game.totalTime.value != 0 && game.totalTime.value < 120000
    case Marathon => |history| >= 10
    case _ => Earned(b, game, history)
  }

  /** Each badge's test as the badges describe it: speedster for a game under
      two minutes by its recorded `time`, marathon for ten games played; the
      other eight as written. */
  predicate Earned(b: Badge, game: GameRecord, history: seq<HistoryRecord>) {
    match b
    case FirstMove => game.moves > 0
    case Explorer => |game.visitedCells| >= 50
    case Master => |game.visitedCells| >= game.boardSize * game.boardSize
    case Speedster => game.time != 0 && game.time < 120000
    case Collector => game.itemsCollected >= 10
    case Survivor => game.minesHit == 0 && game.minesOnBoard > 0
    case Perfect => game.undos == 0 && game.moves > 10
    case Strategist => game.score >= 1000
    case Legend => game.score >= 5000
    case Marathon => GamesIn(history) >= 10
  }

  /** Which reading of the badge tests a check applies: the code as written,
      or the corrected one in which speedster and marathon test what the
      badges describe. */
  datatype Rules = AsWritten | Corrected

  /** A badge's test under the given reading. */
  predicate Passes(rules: Rules, b: Badge, game: GameRecord, history: seq<HistoryRecord>) {
    match rules
    case AsWritten => EarnedAsWritten(b, game, history)
    case Corrected => Earned(b, game, history)
  }

  /** The two marathon tests: records counted as written, games counted as
      intended. */
  lemma MarathonTests(game: GameRecord, history: seq<HistoryRecord>)
    ensures EarnedAsWritten(Marathon, game, history) <==> |history| >= 10
    ensures Earned(Marathon, game, history) <==> GamesIn(history) >= 10
  {
  }

  /** A legend score is also a strategist score. */
  lemma LegendIsStrategist(game: GameRecord, history: seq<HistoryRecord>)
    ensures Earned(Legend, game, history) ==> Earned(Strategist, game, history)
    ensures EarnedAsWritten(Legend, game, history) ==> EarnedAsWritten(Strategist, game, history)
  {
  }

  /** No record endGame builds has a `totalTime`, so as written speedster is
      never earned at the end of a game, however fast; by its recorded time a
      one-minute game earns it. */
  lemma SpeedsterNeverEarned(game: GameRecord, history: seq<HistoryRecord>)
    requires game.totalTime.None?
    ensures !EarnedAsWritten(Speedster, game, history)
    ensures game.time == 60000 ==> Earned(Speedster, game, history)
  {
  }

  /** The answer and the store after one unlock: the badge is appended to the
      returned list when the store reports it new. */
  function Step(state: (Document, seq<Badge>), user: string, b: Badge): (Document, seq<Badge>) {
    if UnlockOutcome(state.0, user, b.Id()) == Some(true)
    then (Storage.Unlock(state.0, user, b.Id()), state.1 + [b])
    else state
  }

  /** Testing the badges in order and unlocking each one that passes its
      test under the given reading. */
  function Process(rules: Rules, d: Document, user: string, bs: seq<Badge>, game: GameRecord, history: seq<HistoryRecord>): (Document, seq<Badge>) {
    if |bs| == 0 then (d, [])
    else
      var n := |bs| - 1;
      var st := Process(rules, d, user, bs[..n], game, history);
      if Passes(rules, bs[n], game, history) then Step(st, user, bs[n]) else st
  }

  lemma ProcessSnoc(rules: Rules, d: Document, user: string, bs: seq<Badge>, b: Badge, game: GameRecord, history: seq<HistoryRecord>)
    ensures Process(rules, d, user, bs + [b], game, history)
            == (var st := Process(rules, d, user, bs, game, history);
                if Passes(rules, b, game, history) then Step(st, user, b) else st)
  {
    assert (bs + [b])[..|bs|] == bs;
  }

  function Ids(bs: seq<Badge>): (r: seq<string>)
    ensures |r| == |bs| && forall i | 0 <= i < |bs| :: r[i] == bs[i].Id()
  {
    seq(|bs|, i requires 0 <= i < |bs| => bs[i].Id())
  }

  /** checkAchievements for a logged-in player, under either reading: the
      badges it returns are exactly those among the tested ones that pass
      their test and that the player did not hold, in testing order; the player's list grows by exactly their
      keys; every other part of the store is unchanged. A player without a
      profile gets nothing. */
  lemma {:induction false} ProcessSpec(rules: Rules, d: Document, user: string, bs: seq<Badge>, game: GameRecord, history: seq<HistoryRecord>)
    requires forall i, j | 0 <= i < j < |bs| :: bs[i] != bs[j]
    ensures var (r, got) := Process(rules, d, user, bs, game, history);
            && (forall b :: b in got <==> b in bs && Passes(rules, b, game, history) && user in d.profiles && b.Id() !in Storage.Achievements(d, user))
            && Storage.Achievements(r, user) == Storage.Achievements(d, user) + Ids(got)
            && r.profiles.Keys == d.profiles.Keys
            && r.rankings == d.rankings && r.gameHistory == d.gameHistory && r.settings == d.settings
            && (forall u | u in d.profiles :: r.profiles[u].gameHistory == d.profiles[u].gameHistory)
            && (forall u | u != user :: Storage.Achievements(r, u) == Storage.Achievements(d, u))
  {
    if |bs| > 0 {
      var n := |bs| - 1;
      var b := bs[n];
      ProcessSpec(rules, d, user, bs[..n], game, history);
      var (r0, got0) := Process(rules, d, user, bs[..n], game, history);
      forall k | 0 <= k < n ensures bs[..n][k] != b {
      }
      assert b !in bs[..n];
      assert b !in got0;
      assert bs == bs[..n] + [b];
      if Passes(rules, b, game, history) && UnlockOutcome(r0, user, b.Id()) == Some(true) {
        assert Ids(got0 + [b]) == Ids(got0) + [b.Id()];
      }
      if user in d.profiles && Passes(rules, b, game, history) && b.Id() !in Storage.Achievements(d, user) {
        forall k | 0 <= k < |got0| ensures got0[k].Id() != b.Id() {
          BadgeOfId(got0[k]);
          BadgeOfId(b);
        }
        assert b.Id() !in Storage.Achievements(r0, user);
      }
    }
  }

  /** Unlocking badges leaves every stored history, and the set of players,
      as they were. */
  lemma {:induction false} ProcessKeepsHistory(rules: Rules, d: Document, user: string, bs: seq<Badge>, game: GameRecord, history: seq<HistoryRecord>, who: Option<string>)
    ensures GameHistory(Process(rules, d, user, bs, game, history).0, who) == GameHistory(d, who)
    ensures Process(rules, d, user, bs, game, history).0.profiles.Keys == d.profiles.Keys
  {
    if |bs| > 0 {
      ProcessKeepsHistory(rules, d, user, bs[..|bs| - 1], game, history, who);
    }
  }

  /** Testing badges that are all held already (or for a player without a
      profile) unlocks nothing and leaves the store as it was. */
  lemma {:induction false} ProcessNothingNew(rules: Rules, d: Document, user: string, bs: seq<Badge>, game: GameRecord, history: seq<HistoryRecord>)
    requires forall b | b in bs && Passes(rules, b, game, history) && user in d.profiles :: b.Id() in Storage.Achievements(d, user)
    ensures Process(rules, d, user, bs, game, history) == (d, [])
  {
    if |bs| > 0 {
      var n := |bs| - 1;
      assert forall b | b in bs[..n] :: b in bs;
      ProcessNothingNew(rules, d, user, bs[..n], game, history);
      assert bs[n] in bs;
    }
  }

  /** A second check with the same game returns no badge: each one returned is
      held from then on. */
  lemma CheckTwice(rules: Rules, d: Document, user: string, game: GameRecord, history: seq<HistoryRecord>)
    ensures Process(rules, Process(rules, d, user, CheckOrder, game, history).0, user, CheckOrder, game, history).1 == []
  {
    var (r, got) := Process(rules, d, user, CheckOrder, game, history);
    ProcessSpec(rules, d, user, CheckOrder, game, history);
    forall b | b in CheckOrder && Passes(rules, b, game, history) && user in r.profiles
      ensures b.Id() in Storage.Achievements(r, user)
    {
      if b.Id() !in Storage.Achievements(d, user) {
        var k :| 0 <= k < |got| && got[k] == b;
        assert Ids(got)[k] == b.Id();
      }
    }
    ProcessNothingNew(rules, r, user, CheckOrder, game, history);
  }

  /** Tested by its recorded time, speedster goes to a player who lacks it
      exactly when the game took under two minutes. */
  lemma SpeedsterByTime(d: Document, user: string, game: GameRecord, history: seq<HistoryRecord>)
    requires user in d.profiles && Speedster.Id() !in Storage.Achievements(d, user)
    ensures Speedster in Process(Corrected, d, user, CheckOrder, game, history).1 <==> game.time != 0 && game.time < 120000
  {
    ProcessSpec(Corrected, d, user, CheckOrder, game, history);
  }

  /** As written, checking a game without a `totalTime`, as every record
      endGame builds is, never returns speedster, however fast the game. */
  lemma SpeedsterNeverUnlocked(d: Document, user: string, game: GameRecord, history: seq<HistoryRecord>)
    requires game.totalTime.None?
    ensures Speedster !in Process(AsWritten, d, user, CheckOrder, game, history).1
  {
    ProcessSpec(AsWritten, d, user, CheckOrder, game, history);
  }

  /** What getAchievements shows after a check: a badge is unlocked exactly
      when it was before or the check returned it. */
  lemma StatusAfterProcess(rules: Rules, d: Document, user: string, game: GameRecord, history: seq<HistoryRecord>)
    requires user != ""
    ensures var (r, got) := Process(rules, d, user, CheckOrder, game, history);
            var before, after := Status(d, Some(user)), Status(r, Some(user));
            forall i | 0 <= i < |AllBadges| :: after[i].1 <==> before[i].1 || AllBadges[i] in got
  {
    var (r, got) := Process(rules, d, user, CheckOrder, game, history);
    ProcessSpec(rules, d, user, CheckOrder, game, history);
    forall i | 0 <= i < |AllBadges|
      ensures AllBadges[i].Id() in Ids(got) <==> AllBadges[i] in got
    {
      var b := AllBadges[i];
      if b.Id() in Ids(got) {
        var k :| 0 <= k < |got| && Ids(got)[k] == b.Id();
        BadgeOfId(b);
        BadgeOfId(got[k]);
      }
      if b in got {
        var k :| 0 <= k < |got| && got[k] == b;
        assert Ids(got)[k] == b.Id();
      }
    }
  }

  /** getAchievements (achievements.js:175-184): every badge in table order,
      marked unlocked exactly when a named player's stored list holds it. */
  function Status(d: Document, username: Option<string>): (r: seq<(Badge, bool)>)
    ensures |r| == |AllBadges|
    ensures forall i | 0 <= i < |r| :: r[i].0 == AllBadges[i]
    ensures forall i | 0 <= i < |r| ::
              r[i].1 <==> Active(username).Some? && AllBadges[i].Id() in Storage.Achievements(d, username.value)
  {
    seq(|AllBadges|, i requires 0 <= i < |AllBadges| =>
      (AllBadges[i], Active(username).Some? && AllBadges[i].Id() in Storage.Achievements(d, username.value)))
  }

  /** The manager: the badge table and the store it unlocks through. */
  class AchievementManager {
    const storage: StorageManager

    constructor(storage: StorageManager)
      ensures this.storage == storage
    {
      this.storage := storage;
    }

    /** unlock (achievements.js:139-147): an unknown key is ignored; a known
        badge is unlocked in the store and appended when it is new. */
    method Unlock(id: string, user: string, unlocked: seq<Badge>) returns (r: seq<Badge>)
      modifies storage`data
      ensures BadgeOf(id).None? ==> r == unlocked && storage.data == old(storage.data)
      ensures BadgeOf(id).Some? ==> (storage.data, r) == Step((old(storage.data), unlocked), user, BadgeOf(id).value)
    {
      r := unlocked;
      var b := BadgeOf(id);
      if b.None? {
        return;
      }
      var wasUnlocked := storage.UnlockAchievement(user, id);
      if wasUnlocked == Some(true) {
        r := r + [b.value];
      }
    }

    /** checkAchievements (achievements.js:78-137) as written: speedster
        tested on `totalTime` and marathon on the number of history records.
        Nothing without a logged-in player; otherwise the badges tested in
        order and unlocked when they pass. */
    method CheckAchievementsAsWritten(game: GameRecord) returns (unlocked: seq<Badge>)
      modifies storage`data
      ensures Active(storage.currentUser).None? ==> unlocked == [] && storage.data == old(storage.data)
      ensures Active(storage.currentUser).Some? ==>
                var user := storage.currentUser.value;
                (storage.data, unlocked)
                  == Process(AsWritten, old(storage.data), user, CheckOrder, game, GameHistory(old(storage.data), Some(user)))
    {
      if Active(storage.currentUser).None? {
        return [];
      }
      var user := storage.currentUser.value;
      ghost var d0 := storage.data;
      ghost var h := GameHistory(d0, Some(user));
      unlocked := CheckProgress(AsWritten, game, user, d0, h);
      unlocked := CheckPlay(AsWritten, game, user, unlocked, d0, h);
      unlocked := CheckScore(AsWritten, game, user, unlocked, d0, h);
      var history := GameHistory(storage.data, Some(user));
      assert history == h by {
        ProcessKeepsHistory(AsWritten, d0, user, CheckOrder[..9], game, h, Some(user));
      }
      unlocked := Consider(Marathon, |history| >= 10, user, unlocked, AsWritten, d0, CheckOrder, 9, game, h);
      assert CheckOrder[..10] == CheckOrder;
    }

    /** checkAchievements corrected: speedster tested on the game's recorded
        `time` and marathon on the number of games played, the other eight
        tests as written. */
    method CheckAchievements(game: GameRecord) returns (unlocked: seq<Badge>)
      modifies storage`data
      ensures Active(storage.currentUser).None? ==> unlocked == [] && storage.data == old(storage.data)
      ensures Active(storage.currentUser).Some? ==>
                var user := storage.currentUser.value;
                (storage.data, unlocked)
                  == Process(Corrected, old(storage.data), user, CheckOrder, game, GameHistory(old(storage.data), Some(user)))
    {
      if Active(storage.currentUser).None? {
        return [];
      }
      var user := storage.currentUser.value;
      ghost var d0 := storage.data;
      ghost var h := GameHistory(d0, Some(user));
      unlocked := CheckProgress(Corrected, game, user, d0, h);
      unlocked := CheckPlay(Corrected, game, user, unlocked, d0, h);
      unlocked := CheckScore(Corrected, game, user, unlocked, d0, h);
      var history := GameHistory(storage.data, Some(user));
      assert history == h by {
        ProcessKeepsHistory(Corrected, d0, user, CheckOrder[..9], game, h, Some(user));
      }
      unlocked := Consider(Marathon, GamesIn(history) >= 10, user, unlocked, Corrected, d0, CheckOrder, 9, game, h);
      assert CheckOrder[..10] == CheckOrder;
    }

    /** The tests on the board covered: firstMove, explorer, master. */
    method CheckProgress(rules: Rules, game: GameRecord, user: string, ghost d0: Document, ghost h: seq<HistoryRecord>)
      returns (unlocked: seq<Badge>)
      requires storage.data == d0
      modifies storage`data
      ensures (storage.data, unlocked) == Process(rules, d0, user, CheckOrder[..3], game, h)
    {
      ghost var order := CheckOrder;
      unlocked := Consider(FirstMove, game.moves > 0, user, [], rules, d0, order, 0, game, h);
      unlocked := Consider(Explorer, |game.visitedCells| >= 50, user, unlocked, rules, d0, order, 1, game, h);
      unlocked := Consider(Master, |game.visitedCells| >= game.boardSize * game.boardSize, user, unlocked, rules, d0, order, 2, game, h);
    }

    /** The tests on how the game was played: speedster (on `totalTime` as
        written, on `time` corrected), collector, survivor, perfect. */
    method CheckPlay(rules: Rules, game: GameRecord, user: string, unlocked0: seq<Badge>, ghost d0: Document, ghost h: seq<HistoryRecord>)
      returns (unlocked: seq<Badge>)
      requires (storage.data, unlocked0) == Process(rules, d0, user, CheckOrder[..3], game, h)
      modifies storage`data
      ensures (storage.data, unlocked) == Process(rules, d0, user, CheckOrder[..7], game, h)
    {
      ghost var order := CheckOrder;
      var fast := match rules
        case AsWritten => game.totalTime.Some? && game.totalTime.value != 0 && game.totalTime.value < 120000
        case Corrected => game.time != 0 && game.time < 120000;
      unlocked := Consider(Speedster, fast, user, unlocked0, rules, d0, order, 3, game, h);
      unlocked := Consider(Collector, game.itemsCollected >= 10, user, unlocked, rules, d0, order, 4, game, h);
      unlocked := Consider(Survivor, game.minesHit == 0 && game.minesOnBoard > 0, user, unlocked, rules, d0, order, 5, game, h);
      unlocked := Consider(Perfect, game.undos == 0 && game.moves > 10, user, unlocked, rules, d0, order, 6, game, h);
    }

    /** The tests on the score: strategist, legend. */
    method CheckScore(rules: Rules, game: GameRecord, user: string, unlocked0: seq<Badge>, ghost d0: Document, ghost h: seq<HistoryRecord>)
      returns (unlocked: seq<Badge>)
      requires (storage.data, unlocked0) == Process(rules, d0, user, CheckOrder[..7], game, h)
      modifies storage`data
      ensures (storage.data, unlocked) == Process(rules, d0, user, CheckOrder[..9], game, h)
    {
      ghost var order := CheckOrder;
      unlocked := Consider(Strategist, game.score >= 1000, user, unlocked0, rules, d0, order, 7, game, h);
      unlocked := Consider(Legend, game.score >= 5000, user, unlocked, rules, d0, order, 8, game, h);
    }

    /** One test of checkAchievements: the badge is unlocked when it passes. */
    method Consider(b: Badge, passed: bool, user: string, unlocked: seq<Badge>, ghost rules: Rules,
                    ghost d0: Document, ghost order: seq<Badge>, ghost k: nat, ghost game: GameRecord, ghost h: seq<HistoryRecord>)
      returns (r: seq<Badge>)
      requires passed == Passes(rules, b, game, h)
      requires k < |order| && b == order[k]
      requires (storage.data, unlocked) == Process(rules, d0, user, order[..k], game, h)
      modifies storage`data
      ensures (storage.data, r) == Process(rules, d0, user, order[..k + 1], game, h)
    {
      r := unlocked;
      if passed {
        BadgeOfId(b);
        r := Unlock(b.Id(), user, unlocked);
      }
      ProcessSnoc(rules, d0, user, order[..k], b, game, h);
      assert order[..k + 1] == order[..k] + [b];
    }
  }
}
