/** What endGame does with the record of a finished game (game.js:647-657):
    the path goes to the library, the game is ranked and stored in the
    history, and the achievements are checked, in that order, all through
    the same store and its logged-in player. */
module Handoff {
  import opened Common
  import opened Seqs
  import opened Records
  import opened Storage
  import opened Paths
  import opened Achievements

  /** The path record savePath builds: with the move count as written, with
      the move log corrected. */
  function PathSaved(rules: Rules, game: GameRecord, user: Option<string>, now: int): PathRecord {
    match rules
    case AsWritten => PathOfAsWritten(game, user, now)
    case Corrected => PathOf(game, user, now)
  }

  /** The store after the path, ranking and history saves of a logged-in
      player. */
  function Saved(rules: Rules, d: Document, user: string, game: GameRecord, now: int): Document {
    var p := PathSaved(rules, game, Some(user), now);
    AddHistory(AddRanking(AddHistory(d, user, OfPath(p), now), user, game, now), user, OfGame(game), now)
  }

  /** The store and the badges unlocked after the hand-off, under either
      reading: nothing is stored and nothing unlocked without a logged-in
      player. */
  function HandOff(rules: Rules, d: Document, current: Option<string>, game: GameRecord, now: int): (Document, seq<Badge>) {
    match Active(current)
    case None => (d, [])
    case Some(u) =>
      var d1 := Saved(rules, d, u, game, now);
      Process(rules, d1, u, CheckOrder, game, GameHistory(d1, Some(u)))
  }

  /** Games played one after another by the same player. */
  function Play(rules: Rules, d: Document, user: string, games: seq<GameRecord>, now: int): Document {
    if |games| == 0 then d
    else HandOff(rules, Play(rules, d, user, games[..|games| - 1], now), Some(user), games[|games| - 1], now).0
  }

  /** The saves append two records to the player's own history: the path,
      then the game. */
  lemma SavedHistory(rules: Rules, d: Document, user: string, game: GameRecord, now: int)
    requires user != "" && user in d.profiles && |d.profiles[user].gameHistory| <= 98
    ensures var r := Saved(rules, d, user, game, now);
            && user in r.profiles
            && GameHistory(r, Some(user))
               == GameHistory(d, Some(user)) + [PathEntry(PathSaved(rules, game, Some(user), now))] + [GameEntry(user, now, game)]
  {
    var p := PathSaved(rules, game, Some(user), now);
    var d1 := AddHistory(d, user, OfPath(p), now);
    AddHistoryAppends(d, user, OfPath(p), now);
    var d2 := AddRanking(d1, user, game, now);
    RankingKeepsProfiles(d1, user, game, now);
    var d3 := AddHistory(d2, user, OfGame(game), now);
    AddHistoryAppends(d2, user, OfGame(game), now);
    assert Saved(rules, d, user, game, now) == d3;
    var h := GameHistory(d, Some(user));
    var a, b := PathEntry(p), GameEntry(user, now, game);
    assert GameHistory(d2, Some(user)) == GameHistory(d1, Some(user)) == h + [a];
    assert GameHistory(d3, Some(user)) == h + [a] + [b];
  }

  /** Ranking a game touches only the rankings. */
  lemma RankingKeepsProfiles(d: Document, user: string, game: GameRecord, now: int)
    ensures AddRanking(d, user, game, now).profiles == d.profiles
  {
  }

  /** A hand-off for a player with a profile leaves the player's history with
      the path and then the game appended (checking the achievements stores
      nothing in it). */
  lemma HandOffHistory(rules: Rules, d: Document, user: string, game: GameRecord, now: int)
    requires user != "" && user in d.profiles && |d.profiles[user].gameHistory| <= 98
    ensures var r := HandOff(rules, d, Some(user), game, now).0;
            && user in r.profiles
            && GameHistory(r, Some(user))
               == GameHistory(d, Some(user)) + [PathEntry(PathSaved(rules, game, Some(user), now))] + [GameEntry(user, now, game)]
  {
    var d1 := Saved(rules, d, user, game, now);
    var h1 := GameHistory(d1, Some(user));
    assert HandOff(rules, d, Some(user), game, now) == Process(rules, d1, user, CheckOrder, game, h1);
    SavedHistory(rules, d, user, game, now);
    ProcessKeepsHistory(rules, d1, user, CheckOrder, game, h1, Some(user));
  }

  /** Without a logged-in player the store is left alone and no badge is
      unlocked. */
  lemma HandOffLoggedOut(rules: Rules, d: Document, current: Option<string>, game: GameRecord, now: int)
    requires current.None? || current == Some("")
    ensures HandOff(rules, d, current, game, now) == (d, [])
  {
  }

  /** After a series of games the player's history holds two records per game,
      one of which is the game itself. */
  lemma {:induction false} PlayHistory(rules: Rules, d: Document, user: string, games: seq<GameRecord>, now: int)
    requires user != "" && user in d.profiles && |d.profiles[user].gameHistory| + 2 * |games| <= 100
    ensures var r := Play(rules, d, user, games, now);
            && user in r.profiles
            && |GameHistory(r, Some(user))| == |GameHistory(d, Some(user))| + 2 * |games|
            && GamesIn(GameHistory(r, Some(user))) == GamesIn(GameHistory(d, Some(user))) + |games|
  {
    if |games| > 0 {
      var n := |games| - 1;
      PlayHistory(rules, d, user, games[..n], now);
      var before := Play(rules, d, user, games[..n], now);
      HandOffHistory(rules, before, user, games[n], now);
      var h := GameHistory(before, Some(user));
      var p := PathEntry(PathSaved(rules, games[n], Some(user), now));
      var g := GameEntry(user, now, games[n]);
      CountWhereSnoc(h, p, (r: HistoryRecord) => r.GameEntry?);
      CountWhereSnoc(h + [p], g, (r: HistoryRecord) => r.GameEntry?);
    }
  }

  /** At the end of a player's (n+1)-th game, for a player whose history
      started empty, the history holds two records per game, one of which is
      the game itself. */
  lemma MarathonHistory(rules: Rules, d: Document, user: string, games: seq<GameRecord>, game: GameRecord, now: int)
    requires user != "" && user in d.profiles && d.profiles[user].gameHistory == []
    requires 2 * |games| + 2 <= 100
    ensures var h := GameHistory(Saved(rules, Play(rules, d, user, games, now), user, game, now), Some(user));
            |h| == 2 * (|games| + 1) && GamesIn(h) == |games| + 1
  {
    PlayHistory(rules, d, user, games, now);
    var before := Play(rules, d, user, games, now);
    SavedHistory(rules, before, user, game, now);
    var h := GameHistory(before, Some(user));
    var p := PathEntry(PathSaved(rules, game, Some(user), now));
    var g := GameEntry(user, now, game);
    CountWhereSnoc(h, p, (r: HistoryRecord) => r.GameEntry?);
    CountWhereSnoc(h + [p], g, (r: HistoryRecord) => r.GameEntry?);
  }

  /** As written, the marathon test at the end of a player's (n+1)-th game
      counts the history's records, two per game, so it passes from the fifth
      game on. */
  lemma MarathonCountAsWritten(d: Document, user: string, games: seq<GameRecord>, game: GameRecord, now: int)
    requires user != "" && user in d.profiles && d.profiles[user].gameHistory == []
    requires 2 * |games| + 2 <= 100
    ensures var h := GameHistory(Saved(AsWritten, Play(AsWritten, d, user, games, now), user, game, now), Some(user));
            EarnedAsWritten(Marathon, game, h) <==> |games| + 1 >= 5
  {
    MarathonHistory(AsWritten, d, user, games, game, now);
    MarathonTests(game, GameHistory(Saved(AsWritten, Play(AsWritten, d, user, games, now), user, game, now), Some(user)));
  }

  /** Counting games, the marathon test passes from the tenth game on. */
  lemma MarathonCount(d: Document, user: string, games: seq<GameRecord>, game: GameRecord, now: int)
    requires user != "" && user in d.profiles && d.profiles[user].gameHistory == []
    requires 2 * |games| + 2 <= 100
    ensures var h := GameHistory(Saved(Corrected, Play(Corrected, d, user, games, now), user, game, now), Some(user));
            Earned(Marathon, game, h) <==> |games| + 1 >= 10
  {
    MarathonHistory(Corrected, d, user, games, game, now);
    MarathonTests(game, GameHistory(Saved(Corrected, Play(Corrected, d, user, games, now), user, game, now), Some(user)));
  }

  /** The hand-off as endGame performs it: savePath with the move count,
      updateRanking, saveGameHistory, then checkAchievements with speedster
      on `totalTime` and marathon on the history's records, all on one
      store. */
  method HandOffRecordAsWritten(library: PathLibrary, manager: AchievementManager, game: GameRecord, now: int)
    returns (unlocked: seq<Badge>)
    requires library.storage == manager.storage
    modifies library`savedPaths, library.storage`data
    ensures library.savedPaths
            == old(library.savedPaths) + [PathEntry(PathSaved(AsWritten, game, library.storage.currentUser, now))]
    ensures (library.storage.data, unlocked)
            == HandOff(AsWritten, old(library.storage.data), library.storage.currentUser, game, now)
  {
    var p := library.SavePathAsWritten(game, now);
    library.storage.UpdateRanking(game, now);
    library.storage.SaveGameHistory(OfGame(game), now);
    unlocked := manager.CheckAchievementsAsWritten(game);
  }

  /** The hand-off corrected: the path keeps the move log, and speedster and
      marathon test the game's time and the number of games. */
  method HandOffRecord(library: PathLibrary, manager: AchievementManager, game: GameRecord, now: int)
    returns (unlocked: seq<Badge>)
    requires library.storage == manager.storage
    modifies library`savedPaths, library.storage`data
    ensures library.savedPaths
            == old(library.savedPaths) + [PathEntry(PathSaved(Corrected, game, library.storage.currentUser, now))]
    ensures (library.storage.data, unlocked)
            == HandOff(Corrected, old(library.storage.data), library.storage.currentUser, game, now)
  {
    var p := library.SavePath(game, now);
    library.storage.UpdateRanking(game, now);
    library.storage.SaveGameHistory(OfGame(game), now);
    unlocked := manager.CheckAchievements(game);
  }
}
