/** The persistent store (storage.js): player profiles with base64-encoded
    passwords, the general and per-category rankings, the global and per-player
    game history, the settings and each player's achievements. The source keeps
    all of it as one JSON document in the browser's local storage and reads it
    back before every operation; here the document is a value, held by the
    StorageManager class and replaced by each operation. */
module Storage {
  import opened Common
  import opened Text
  import opened Sorting
  import opened Records
  import Base64

  /** A settings value: the stored settings are strings, flags and volumes. */
  datatype Value = Str(s: string) | Flag(b: bool) | Num(r: real)

  /** A new profile's statistics (storage.js:57-68). */
  datatype Stats = Stats(
    totalGames: int,
    totalScore: int,
    bestScore: int,
    totalHouses: int,
    averageTime: int,
    favoriteStartPosition: Option<Cell>,
    characteristicDirection: Option<string>,
    stuckPositions: map<string, int>,
    repeatedPaths: seq<string>,
    solutionStyle: string)

  datatype Profile = Profile(
    password: string,
    stats: Stats,
    achievements: seq<string>,
    gameHistory: seq<HistoryRecord>)

  /** One ranking line (storage.js:116-126). */
  datatype RankingEntry = RankingEntry(
    username: string,
    score: int,
    houses: int,
    time: int,
    moves: int,
    itemsCollected: int,
    startPosition: Option<Cell>,
    undos: int,
    timestamp: int)

  datatype Rankings = Rankings(general: seq<RankingEntry>, byCategory: map<string, seq<RankingEntry>>)

  /** The whole stored document. */
  datatype Document = Document(
    profiles: map<string, Profile>,
    rankings: Rankings,
    gameHistory: seq<HistoryRecord>,
    settings: map<string, Value>)

  /** The document init() writes when nothing is stored yet (storage.js:10-27). */
  function InitialDocument(): (d: Document)
    ensures d.profiles == map[] && d.gameHistory == [] && d.rankings == Rankings([], map[])
    ensures d.settings.Keys == {"language", "resolution", "theme", "soundEnabled",
                                "musicVolume", "sfxVolume", "audioDescription"}
  {
    Document(map[], Rankings([], map[]), [],
      map["language" := Str("pt-BR"), "resolution" := Str("auto"), "theme" := Str("default"),
          "soundEnabled" := Flag(true), "musicVolume" := Num(0.7), "sfxVolume" := Num(0.8),
          "audioDescription" := Flag(false)])
  }

  /** The session's user as the source tests it: a missing or empty name means
      nobody is logged in. */
  function Active(user: Option<string>): (r: Option<string>)
    ensures r.Some? <==> user.Some? && user.value != ""
    ensures r.Some? ==> r == user
  {
    if user.Some? && user.value != "" then user else None
  }

  // ---------------------------------------------------------------- profiles

  predicate IsAlnum(c: char) {
    'a' <= c <= 'z' || 'A' <= c <= 'Z' || '0' <= c <= '9'
  }

  /** The symbols the password pattern admits besides letters and digits. */
  const PasswordSymbols: string := "!@#$%^&*()_+-=[]{};':\"\\|,.<>/?"

  /** 5 to 13 letters or digits (storage.js:47). */
  predicate ValidUsername(u: string) {
    5 <= |u| <= 13 && forall i | 0 <= i < |u| :: IsAlnum(u[i])
  }

  /** 4 to 9 letters, digits or listed symbols (storage.js:51). */
  predicate ValidPassword(p: string) {
    4 <= |p| <= 9 && forall i | 0 <= i < |p| :: IsAlnum(p[i]) || p[i] in PasswordSymbols
  }

  /** Every password the pattern admits is ASCII, so btoa accepts it. */
  lemma ValidPasswordIsByteString(p: string)
    requires ValidPassword(p)
    ensures Base64.IsByteString(p)
  {
    forall i | 0 <= i < |p| ensures p[i] as int < 256 {
      if !IsAlnum(p[i]) {
        var k :| 0 <= k < |PasswordSymbols| && PasswordSymbols[k] == p[i];
      }
    }
  }

  datatype CreateResult = Created | UsernameTaken | BadUsername | BadPassword {
    predicate Success() {
      this == Created
    }

    function Message(): string {
      match this
      case Created => "Perfil criado com sucesso"
      case UsernameTaken => "Nome de usuário já existe"
      case BadUsername => "Nome deve ter 5-13 caracteres alfanuméricos"
      case BadPassword => "Senha deve ter 4-9 caracteres alfanuméricos e especiais"
    }
  }

  /** createProfile's checks, in the source's order (storage.js:43-53): a taken
      name first, then the name's shape, then the password's. */
  function CreateOutcome(d: Document, username: string, password: string): (r: CreateResult)
    ensures r == Created <==> username !in d.profiles && ValidUsername(username) && ValidPassword(password)
    ensures username in d.profiles ==> r == UsernameTaken
    ensures r == BadPassword ==> ValidUsername(username) && !ValidPassword(password)
  {
    if username in d.profiles then UsernameTaken
    else if !ValidUsername(username) then BadUsername
    else if !ValidPassword(password) then BadPassword
    else Created
  }

  /** A fresh profile: the encoded password, zeroed statistics, no
      achievements and no history. */
  function NewProfile(password: string): (p: Profile)
    requires ValidPassword(password)
    ensures p.achievements == [] && p.gameHistory == []
    ensures Base64.Decode(p.password) == Some(password)
  {
    ValidPasswordIsByteString(password);
    Base64.DecodeEncode(password);
    Profile(Base64.Encode(password),
      Stats(0, 0, 0, 0, 0, None, None, map[], [], "balanced"),
      [], [])
  }

  datatype AuthResult = UnknownUser | WrongPassword | Undecodable | Authenticated(profile: Profile) {
    predicate Success() {
      this.Authenticated?
    }
  }

  /** authenticateProfile (storage.js:77-90): an unknown name, a password that
      differs from the decoded stored one, or the profile. `Undecodable` stands
      for atob throwing on a stored value that is not base64, which no profile
      created by createProfile has. */
  function Authenticate(d: Document, username: string, password: string): (r: AuthResult)
    ensures r.Authenticated? <==> username in d.profiles && Base64.Decode(d.profiles[username].password) == Some(password)
    ensures r.Authenticated? ==> r.profile == d.profiles[username]
    ensures r == UnknownUser <==> username !in d.profiles
  {
    if username !in d.profiles then UnknownUser
    else
      match Base64.Decode(d.profiles[username].password)
      case None => Undecodable
      case Some(p) => if p != password then WrongPassword else Authenticated(d.profiles[username])
  }

  /** The document after a successful createProfile. */
  function AddProfile(d: Document, username: string, password: string): (r: Document)
    requires ValidPassword(password)
  {
    d.(profiles := d.profiles[username := NewProfile(password)])
  }

  /** A profile just created authenticates with its password and with no other;
      the other profiles answer as before. */
  lemma CreateThenAuthenticate(d: Document, username: string, password: string, other: string, name: string)
    requires CreateOutcome(d, username, password) == Created
    ensures Authenticate(AddProfile(d, username, password), username, password) == Authenticated(NewProfile(password))
    ensures other != password ==> Authenticate(AddProfile(d, username, password), username, other) == WrongPassword
    ensures name != username ==> Authenticate(AddProfile(d, username, password), name, other) == Authenticate(d, name, other)
    ensures CreateOutcome(AddProfile(d, username, password), username, other) == UsernameTaken
  {
    var p := NewProfile(password);
    assert Base64.Decode(p.password) == Some(password);
  }

  /** getCurrentProfile (storage.js:92-98): the logged-in user's name and profile. */
  function CurrentProfile(d: Document, user: Option<string>): (r: Option<(string, Profile)>)
    ensures r.Some? <==> Active(user).Some? && user.value in d.profiles
    ensures r.Some? ==> r.value == (user.value, d.profiles[user.value])
  {
    match Active(user)
    case None => None
    case Some(u) => if u in d.profiles then Some((u, d.profiles[u])) else None
  }

  // ---------------------------------------------------------------- rankings

  /** The ranking comparator (storage.js:129-133) as "a may stand before b":
      higher score first, then more houses, then less time. */
  predicate RankBefore(a: RankingEntry, b: RankingEntry) {
    || a.score > b.score
    || (a.score == b.score && a.houses > b.houses)
    || (a.score == b.score && a.houses == b.houses && a.time <= b.time)
  }

  lemma RankBeforeTotal()
    ensures TotalPreorder(RankBefore)
  {
  }

  /** The category key `${boardSize}x${boardSize}_${gameMode}` (storage.js:110). */
  function CategoryKey(boardSize: int, mode: Mode): string {
    IntToString(boardSize) + "x" + IntToString(boardSize) + "_" + ModeName(mode)
  }

  lemma NoSeparators(i: int)
    ensures 'x' !in IntToString(i) && '_' !in IntToString(i)
  {
    var s := IntToString(i);
    forall k | 0 <= k < |s| ensures s[k] != 'x' && s[k] != '_' {
    }
  }

  /** A category key cut at its first 'x': the size, then the rest. */
  lemma CategoryKeyCut(size: int, m: Mode)
    ensures Cut(CategoryKey(size, m), 'x') == Some((IntToString(size), IntToString(size) + "_" + ModeName(m)))
    ensures Cut(IntToString(size) + "_" + ModeName(m), '_') == Some((IntToString(size), ModeName(m)))
  {
    NoSeparators(size);
    var t := IntToString(size);
    assert CategoryKey(size, m) == t + ['x'] + (t + ['_'] + ModeName(m));
    CutJoin(t, 'x', t + ['_'] + ModeName(m));
    CutJoin(t, '_', ModeName(m));
  }

  /** Different board sizes or modes never share a ranking category. */
  lemma CategoryKeyInjective(a: int, m: Mode, b: int, n: Mode)
    requires CategoryKey(a, m) == CategoryKey(b, n)
    ensures a == b && m == n
  {
    CategoryKeyCut(a, m);
    CategoryKeyCut(b, n);
    ParseIntRoundTrip(a);
    ParseIntRoundTrip(b);
    assert ModeName(m) == ModeName(n);
    assert ModeName(m)[0] == ModeName(n)[0];
  }

  /** The first n elements, or all of them when there are fewer: slice(0, n). */
  function Take<T>(s: seq<T>, n: nat): (r: seq<T>)
    ensures |r| == if |s| < n then |s| else n
    ensures r == s[..|r|]
  {
    if |s| < n then s else s[..n]
  }

  /** A ranking list after adding an entry: push, sort, keep the best 100. */
  function Ranked(list: seq<RankingEntry>, e: RankingEntry): seq<RankingEntry> {
    RankBeforeTotal();
    Take(Sort(list + [e], RankBefore), 100)
  }

  /** A ranking list after an entry is added is ordered best first, holds at
      most 100 entries, all taken from the old list and the entry; below 100
      nothing is dropped; and an entry left out has 100 entries ranked at least
      as high. */
  lemma RankedSpec(list: seq<RankingEntry>, e: RankingEntry)
    ensures var r := Ranked(list, e);
            && SortedBy(r, RankBefore)
            && |r| <= 100
            && multiset(r) <= multiset(list) + multiset{e}
            && (|list| < 100 ==> multiset(r) == multiset(list) + multiset{e})
            && (e !in r ==> |r| == 100 && forall i | 0 <= i < |r| :: RankBefore(r[i], e))
  {
    RankBeforeTotal();
    var s := Sort(list + [e], RankBefore);
    var r := Ranked(list, e);
    assert multiset(list + [e]) == multiset(list) + multiset{e};
    TakeOfSorted(s, 100);
    if e !in r {
      assert e in multiset(s);
      var k :| 0 <= k < |s| && s[k] == e;
      assert k >= |r|;
    }
  }

  /** The first n elements of an ordered list: ordered, a sub-multiset, and
      ranked no lower than anything after them. */
  lemma TakeOfSorted(s: seq<RankingEntry>, n: nat)
    requires SortedBy(s, RankBefore)
    ensures var r := Take(s, n);
            && SortedBy(r, RankBefore)
            && multiset(r) <= multiset(s)
            && (|s| <= n ==> r == s)
            && forall i, k | 0 <= i < |r| <= k < |s| :: RankBefore(r[i], s[k])
  {
    var r := Take(s, n);
    assert s == r + s[|r|..];
    assert multiset(s) == multiset(r) + multiset(s[|r|..]);
  }

  /** The ranking line for a finished game (storage.js:116-126). */
  function EntryOf(user: string, game: GameRecord, now: int): (e: RankingEntry)
    ensures e.username == user && e.score == game.score && e.houses == game.houses
    ensures e.time == game.time && e.timestamp == now
  {
    RankingEntry(user, game.score, game.houses, game.time, game.moves,
      game.itemsCollected, game.startPosition, game.undos, now)
  }

  /** getRankings (storage.js:155-161): the general list, or a category's list
      (empty when the category has none). */
  function RankingList(d: Document, category: string): seq<RankingEntry> {
    if category == "general" then d.rankings.general
    else if category in d.rankings.byCategory then d.rankings.byCategory[category]
    else []
  }

  /** updateRanking's change for a logged-in user: the entry goes into its
      category's list and into the general list. */
  function AddRanking(d: Document, user: string, game: GameRecord, now: int): (r: Document)
    ensures r.profiles == d.profiles && r.gameHistory == d.gameHistory && r.settings == d.settings
  {
    var key := CategoryKey(game.boardSize, game.mode);
    var e := EntryOf(user, game, now);
    d.(rankings := Rankings(
      Ranked(d.rankings.general, e),
      d.rankings.byCategory[key := Ranked(RankingList(d, key), e)]))
  }

  /** After a game is ranked, its category's list and the general list are each
      the old list with the entry ranked in; every other category is unchanged. */
  lemma AddRankingLists(d: Document, user: string, game: GameRecord, now: int, other: string)
    ensures var r := AddRanking(d, user, game, now);
            var key := CategoryKey(game.boardSize, game.mode);
            var e := EntryOf(user, game, now);
            && RankingList(r, "general") == Ranked(RankingList(d, "general"), e)
            && RankingList(r, key) == Ranked(RankingList(d, key), e)
            && (other != key && other != "general" ==> RankingList(r, other) == RankingList(d, other))
  {
    var key := CategoryKey(game.boardSize, game.mode);
    assert key[|IntToString(game.boardSize)|] == 'x';
    assert key != "general";
  }

  // ---------------------------------------------------------------- history

  /** The last n elements, or all of them when there are fewer: slice(-n). */
  function KeepLast<T>(s: seq<T>, n: nat): (r: seq<T>)
    ensures |r| == if |s| < n then |s| else n
    ensures r == s[|s| - |r|..]
  {
    if |s| > n then s[|s| - n..] else s
  }

  /** A history after a record is appended: the newest n records, ending with it. */
  lemma AppendKeepLast<T>(s: seq<T>, x: T, n: nat)
    requires n > 0
    ensures var r := KeepLast(s + [x], n);
            && |r| == (if |s| < n then |s| + 1 else n)
            && r[|r| - 1] == x
            && r[..|r| - 1] == s[|s| + 1 - |r|..]
  {
    var r := KeepLast(s + [x], n);
    assert r == (s + [x])[|s| + 1 - |r|..];
    assert r[..|r| - 1] == (s + [x])[|s| + 1 - |r|..|s|];
  }

  /** saveGameHistory's change for a logged-in user (storage.js:169-186): the
      record goes to the end of the global history, kept to the newest 1000,
      and of the user's own history, kept to the newest 100, if the user has a
      profile. */
  function AddHistory(d: Document, user: string, payload: Payload, now: int): (r: Document)
    ensures r.profiles.Keys == d.profiles.Keys && r.rankings == d.rankings && r.settings == d.settings
  {
    var rec := Stamp(payload, user, now);
    var d1 := d.(gameHistory := KeepLast(d.gameHistory + [rec], 1000));
    if user in d.profiles then
      var p := d.profiles[user];
      d1.(profiles := d.profiles[user := p.(gameHistory := KeepLast(p.gameHistory + [rec], 100))])
    else d1
  }

  /** getGameHistory (storage.js:191-197): a named user's own history (empty
      when the name has no profile), or the global one when no name is given. */
  function GameHistory(d: Document, username: Option<string>): seq<HistoryRecord> {
    match Active(username)
    case Some(u) => if u in d.profiles then d.profiles[u].gameHistory else []
    case None => d.gameHistory
  }

  /** After a save, the global history ends with the stamped record and keeps
      the newest earlier ones, up to 1000 records. */
  lemma AddHistoryGlobal(d: Document, user: string, payload: Payload, now: int)
    ensures var g := GameHistory(AddHistory(d, user, payload, now), None);
            && |g| == (if |d.gameHistory| < 1000 then |d.gameHistory| + 1 else 1000)
            && g[|g| - 1] == Stamp(payload, user, now)
            && g[..|g| - 1] == d.gameHistory[|d.gameHistory| + 1 - |g|..]
  {
    AppendKeepLast(d.gameHistory, Stamp(payload, user, now), 1000);
  }

  /** After a save, the user's own history ends with the stamped record and
      keeps the newest earlier ones, up to 100 records. */
  lemma AddHistoryOwn(d: Document, user: string, payload: Payload, now: int)
    requires user != "" && user in d.profiles
    ensures var before := d.profiles[user].gameHistory;
            var own := GameHistory(AddHistory(d, user, payload, now), Some(user));
            && |own| == (if |before| < 100 then |before| + 1 else 100)
            && own[|own| - 1] == Stamp(payload, user, now)
            && own[..|own| - 1] == before[|before| + 1 - |own|..]
  {
    var rec := Stamp(payload, user, now);
    var before := d.profiles[user].gameHistory;
    var own := GameHistory(AddHistory(d, user, payload, now), Some(user));
    assert own == KeepLast(before + [rec], 100) by {
      assert Active(Some(user)) == Some(user);
    }
    AppendKeepLast(before, rec, 100);
  }

  /** A save leaves every other named user's history unchanged. */
  lemma AddHistoryOthers(d: Document, user: string, payload: Payload, now: int, other: string)
    requires other != user && other != ""
    ensures GameHistory(AddHistory(d, user, payload, now), Some(other)) == GameHistory(d, Some(other))
  {
    var r := AddHistory(d, user, payload, now);
    assert other in r.profiles <==> other in d.profiles;
    if other in d.profiles {
      assert r.profiles[other] == d.profiles[other];
    }
  }

  /** Below the cap of 100, a save appends the record to the user's own
      history and drops nothing. */
  lemma AddHistoryAppends(d: Document, user: string, payload: Payload, now: int)
    requires user != "" && user in d.profiles && |d.profiles[user].gameHistory| < 100
    ensures var r := AddHistory(d, user, payload, now);
            && user in r.profiles
            && GameHistory(r, Some(user)) == GameHistory(d, Some(user)) + [Stamp(payload, user, now)]
  {
  }

  // ---------------------------------------------------------------- settings

  /** updateSettings (storage.js:205-209): the new values override, every other
      setting stays. */
  function MergeSettings(old_: map<string, Value>, new_: map<string, Value>): (r: map<string, Value>)
    ensures r.Keys == old_.Keys + new_.Keys
    ensures forall k | k in new_ :: r[k] == new_[k]
    ensures forall k | k in old_ && k !in new_ :: r[k] == old_[k]
  {
    old_ + new_
  }

  /** Applying the same settings twice is the same as applying them once. */
  lemma MergeSettingsIdempotent(s: map<string, Value>, n: map<string, Value>)
    ensures MergeSettings(MergeSettings(s, n), n) == MergeSettings(s, n)
  {
  }

  // ------------------------------------------------------------ achievements

  /** unlockAchievement's answer (storage.js:212-222): nothing for a name with
      no profile, true when the badge is new, false when it was already there. */
  function UnlockOutcome(d: Document, username: string, id: string): (r: Option<bool>)
    ensures r.None? <==> username !in d.profiles
    ensures r == Some(true) <==> username in d.profiles && id !in d.profiles[username].achievements
  {
    if username !in d.profiles then None
    else Some(id !in d.profiles[username].achievements)
  }

  /** The document after unlockAchievement: the badge appended when it is new. */
  function Unlock(d: Document, username: string, id: string): Document {
    if UnlockOutcome(d, username, id) == Some(true) then
      var p := d.profiles[username];
      d.(profiles := d.profiles[username := p.(achievements := p.achievements + [id])])
    else d
  }

  /** getAchievements (storage.js:224-227). */
  function Achievements(d: Document, username: string): seq<string> {
    if username in d.profiles then d.profiles[username].achievements else []
  }

  predicate NoDuplicates<T(==)>(s: seq<T>) {
    forall i, j | 0 <= i < j < |s| :: s[i] != s[j]
  }

  /** After an unlock for an existing profile the badge is held, the earlier
      badges keep their order, a list without duplicates stays without, and a
      second unlock of the same badge answers false and changes nothing. */
  lemma UnlockSpec(d: Document, username: string, id: string)
    requires username in d.profiles
    ensures var r := Unlock(d, username, id);
            var before := Achievements(d, username);
            var after := Achievements(r, username);
            && id in after
            && after[..|before|] == before
            && (NoDuplicates(before) ==> NoDuplicates(after))
            && UnlockOutcome(r, username, id) == Some(false)
            && Unlock(r, username, id) == r
  {
    var before := Achievements(d, username);
    var after := Achievements(Unlock(d, username, id), username);
    if id !in before {
      assert after == before + [id];
      assert after[|before|] == id;
    }
  }

  // ------------------------------------------------------------------ class

  /** The store: the document and the session's current user (sessionStorage). */
  class StorageManager {
    var data: Document
    var currentUser: Option<string>

    /** init(): the stored document, or the initial one when nothing is stored. */
    constructor(stored: Option<Document>, sessionUser: Option<string>)
      ensures data == stored.GetOr(InitialDocument()) && currentUser == sessionUser
    {
      data := stored.GetOr(InitialDocument());
      currentUser := sessionUser;
    }

    method CreateProfile(username: string, password: string) returns (r: CreateResult)
      modifies this`data
      ensures r == CreateOutcome(old(data), username, password)
      ensures data == if r == Created then AddProfile(old(data), username, password) else old(data)
    {
      r := CreateOutcome(data, username, password);
      if r == Created {
        data := AddProfile(data, username, password);
      }
    }

    method SetCurrentProfile(username: string)
      modifies this`currentUser
      ensures currentUser == Some(username)
    {
      currentUser := Some(username);
    }

    /** updateRanking: nothing without a logged-in user. */
    method UpdateRanking(game: GameRecord, now: int)
      modifies this`data
      ensures data == match Active(currentUser)
                      case None => old(data)
                      case Some(u) => AddRanking(old(data), u, game, now)
    {
      match Active(currentUser)
      case None =>
      case Some(u) => data := AddRanking(data, u, game, now);
    }

    /** saveGameHistory: nothing without a logged-in user. */
    method SaveGameHistory(payload: Payload, now: int)
      modifies this`data
      ensures data == match Active(currentUser)
                      case None => old(data)
                      case Some(u) => AddHistory(old(data), u, payload, now)
    {
      match Active(currentUser)
      case None =>
      case Some(u) => data := AddHistory(data, u, payload, now);
    }

    method UpdateSettings(newSettings: map<string, Value>)
      modifies this`data
      ensures data == old(data).(settings := MergeSettings(old(data).settings, newSettings))
    {
      data := data.(settings := MergeSettings(data.settings, newSettings));
    }

    method UnlockAchievement(username: string, id: string) returns (r: Option<bool>)
      modifies this`data
      ensures r == UnlockOutcome(old(data), username, id)
      ensures data == Unlock(old(data), username, id)
    {
      r := UnlockOutcome(data, username, id);
      data := Unlock(data, username, id);
    }
  }
}
