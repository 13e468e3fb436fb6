/** `build_wr_feature_table`: point-in-time features from histories that grow one game at a time. */
module FeatureTable {
  import opened Foundations
  import opened Numerics
  import opened Histories
  import opened Ordering

  // ---- rows ----------------------------------------------------------------

  /** What is known of a player-game before kickoff. */
  datatype Pregame = Pregame(
    player: string, gameId: string, season: int, week: int, kickoff: int, team: string, opponent: string, isHome: bool)

  /** What the game itself produced. */
  datatype Outcome = Outcome(receptions: real, targets: real, yards: real, actualReceptions: real)

  datatype Row = Row(pregame: Pregame, outcome: Outcome)

  type Game = seq<Row>

  datatype TeamGame = TeamGame(
    team: string, opponent: string, attempts: Option<real>, completions: Option<real>,
    completionRate: Option<real>, targetConcentration: Option<real>)

  type TeamKey = (int, string, string)

  /** The keyed tables the loop consults: team games, snap shares, route participation. */
  datatype Inputs = Inputs(
    teams: map<TeamKey, TeamGame>,
    snaps: map<(string, string), Option<real>>,
    routes: map<(string, string), Option<real>>)

  /** One retained team game of the joined table. */
  datatype TeamRow = TeamRow(season: int, gameId: string, game: TeamGame)

  /** `team_context`: the team games by season, game and team; a later row replaces an earlier one. */
  function TeamContext(rows: seq<TeamRow>): map<TeamKey, TeamGame> {
    if rows == [] then map[]
    else
      var r := rows[|rows| - 1];
      TeamContext(rows[..|rows| - 1])[(r.season, r.gameId, r.game.team) := r.game]
  }

  function GetUsage(usage: map<(string, string), Option<real>>, player: string, gameId: string): Option<real> {
    if (player, gameId) in usage then usage[(player, gameId)] else None
  }

  // ---- window statistics ---------------------------------------------------

  /** Python's `values[-window:]`; a zero window selects everything. */
  function LastOf<T>(values: seq<T>, window: nat): seq<T> {
    if window == 0 || window >= |values| then values else values[|values| - window..]
  }

  function Known(value: Option<real>): real {
    if value.Some? then value.value else 0.0
  }

  function MeanOf(values: seq<Option<real>>, window: nat): Option<real> {
    var observed := LastOf(values, window);
    if observed == [] || exists i :: 0 <= i < |observed| && observed[i].None? then None
    else Some(Total(observed, Known) / |observed| as real)
  }

  /** The pairs of which both parts are known. */
  function KnownPairs(numerators: seq<Option<real>>, denominators: seq<Option<real>>): seq<(real, real)>
    requires |numerators| == |denominators|
  {
    if numerators == [] then []
    else
      var n := |numerators| - 1;
      KnownPairs(numerators[..n], denominators[..n])
        + if numerators[n].Some? && denominators[n].Some? then [(numerators[n].value, denominators[n].value)] else []
  }

  function Numerators(pairs: seq<(real, real)>): real {
    if pairs == [] then 0.0 else Numerators(pairs[..|pairs| - 1]) + pairs[|pairs| - 1].0
  }

  function Denominators(pairs: seq<(real, real)>): real {
    if pairs == [] then 0.0 else Denominators(pairs[..|pairs| - 1]) + pairs[|pairs| - 1].1
  }

  function RatioOf(numerators: seq<Option<real>>, denominators: seq<Option<real>>, window: nat): Option<real>
    requires |numerators| == |denominators|
  {
    var pairs := KnownPairs(LastOf(numerators, window), LastOf(denominators, window));
    if pairs == [] || Denominators(pairs) <= 0.0 then None else Some(Numerators(pairs) / Denominators(pairs))
  }

  function LastValue(values: seq<Option<real>>): Option<real> {
    if values == [] then None else values[|values| - 1]
  }

  // ---- history items -------------------------------------------------------

  datatype PlayerItem = PlayerItem(
    season: int, kickoff: int, receptions: Option<real>, targets: Option<real>, yards: Option<real>,
    targetShare: Option<real>, snapShare: Option<real>, routeParticipation: Option<real>)

  datatype OffenseItem = OffenseItem(
    attempts: Option<real>, completions: Option<real>, completionRate: Option<real>, targetConcentration: Option<real>)

  datatype DefenseItem = DefenseItem(
    attemptsAllowed: Option<real>, completionsAllowed: Option<real>,
    receptionsAllowed: Option<real>, targetsAllowed: Option<real>)

  function TargetShare(targets: real, context: Option<TeamGame>): Option<real> {
    if context.Some? && context.value.attempts.Some? && context.value.attempts.value > 0.0
    then Some(targets / context.value.attempts.value)
    else None
  }

  function ContextOf(x: Inputs, key: TeamKey): Option<TeamGame> {
    if key in x.teams then Some(x.teams[key]) else None
  }

  function PlayerItemOf(x: Inputs, season: int, gameId: string, row: Row): PlayerItem {
    PlayerItem(
      season, row.pregame.kickoff, Some(row.outcome.receptions), Some(row.outcome.targets), Some(row.outcome.yards),
      TargetShare(row.outcome.targets, ContextOf(x, (season, gameId, row.pregame.team))),
      GetUsage(x.snaps, row.pregame.player, gameId), GetUsage(x.routes, row.pregame.player, gameId))
  }

  function OffenseOf(t: TeamGame): OffenseItem {
    OffenseItem(t.attempts, t.completions, t.completionRate, t.targetConcentration)
  }

  /** The rows of one team. */
  function RowsOfTeam(game: Game, team: string): seq<Row> {
    if game == [] then []
    else
      var n := |game| - 1;
      RowsOfTeam(game[..n], team) + if game[n].pregame.team == team then [game[n]] else []
  }

  function SumReceptions(rows: seq<Row>): real {
    if rows == [] then 0.0 else SumReceptions(rows[..|rows| - 1]) + rows[|rows| - 1].outcome.receptions
  }

  function SumTargets(rows: seq<Row>): real {
    if rows == [] then 0.0 else SumTargets(rows[..|rows| - 1]) + rows[|rows| - 1].outcome.targets
  }

  function DefenseOf(t: TeamGame, game: Game): DefenseItem {
    var rows := RowsOfTeam(game, t.team);
    DefenseItem(t.attempts, t.completions,
                if rows == [] then None else Some(SumReceptions(rows)),
                if rows == [] then None else Some(SumTargets(rows)))
  }

  // ---- features ------------------------------------------------------------

  datatype PlayerWindow = PlayerWindow(
    receptions: Option<real>, targets: Option<real>, yards: Option<real>, catchRate: Option<real>,
    targetShare: Option<real>)

  datatype ContextWindow = ContextWindow(
    snapShare: Option<real>, routeParticipation: Option<real>,
    teamAttempts: Option<real>, teamCompletions: Option<real>, teamCompletionRate: Option<real>,
    teamConcentration: Option<real>, attemptsAllowed: Option<real>, completionsAllowed: Option<real>,
    receptionsAllowed: Option<real>, targetsAllowed: Option<real>)

  datatype Features = Features(
    receptionsLag1: Option<real>, targetsLag1: Option<real>, yardsLag1: Option<real>,
    receptionsSeasonMean: Option<real>, targetsSeasonMean: Option<real>, yardsSeasonMean: Option<real>,
    gamesPlayedBefore: nat, snapShareLag1: Option<real>, routeParticipationLag1: Option<real>,
    homeIndicator: int, restDays: Option<real>, gameWeek: int, seasonYear: int, hasPriorHistory: int,
    roll3: PlayerWindow, roll5: PlayerWindow, roll8: PlayerWindow,
    context3: ContextWindow, context5: ContextWindow,
    snapShareMissing: int, routeParticipationMissing: int)

  /** Everything the loop knows when it emits one row. */
  datatype Knowledge = Knowledge(
    player: seq<PlayerItem>, playerSeason: seq<PlayerItem>, offense: seq<OffenseItem>, defense: seq<DefenseItem>)

  function Pluck<T>(items: seq<T>, column: T -> Option<real>): seq<Option<real>> {
    seq(|items|, i requires 0 <= i < |items| => column(items[i]))
  }

  function PlayerWindowOf(history: seq<PlayerItem>, window: nat): PlayerWindow {
    var receptions, targets := Pluck(history, (i: PlayerItem) => i.receptions),
                               Pluck(history, (i: PlayerItem) => i.targets);
    PlayerWindow(
      MeanOf(receptions, window), MeanOf(targets, window), MeanOf(Pluck(history, (i: PlayerItem) => i.yards), window),
      RatioOf(receptions, targets, window), MeanOf(Pluck(history, (i: PlayerItem) => i.targetShare), window))
  }

  function ContextWindowOf(k: Knowledge, window: nat): ContextWindow {
    ContextWindow(
      MeanOf(Pluck(k.player, (i: PlayerItem) => i.snapShare), window),
      MeanOf(Pluck(k.player, (i: PlayerItem) => i.routeParticipation), window),
      MeanOf(Pluck(k.offense, (i: OffenseItem) => i.attempts), window),
      MeanOf(Pluck(k.offense, (i: OffenseItem) => i.completions), window),
      MeanOf(Pluck(k.offense, (i: OffenseItem) => i.completionRate), window),
      MeanOf(Pluck(k.offense, (i: OffenseItem) => i.targetConcentration), window),
      MeanOf(Pluck(k.defense, (i: DefenseItem) => i.attemptsAllowed), window),
      MeanOf(Pluck(k.defense, (i: DefenseItem) => i.completionsAllowed), window),
      MeanOf(Pluck(k.defense, (i: DefenseItem) => i.receptionsAllowed), window),
      MeanOf(Pluck(k.defense, (i: DefenseItem) => i.targetsAllowed), window))
  }

  function SeasonMean(history: seq<PlayerItem>, column: PlayerItem -> Option<real>): Option<real> {
    if history == [] then None else MeanOf(Pluck(history, column), |history|)
  }

  const SECONDS_PER_DAY := 86400.0

  /** Kickoffs are in seconds. */
  function RestDays(kickoff: int, history: seq<PlayerItem>): Option<real> {
    if history == [] then None else Some((kickoff - history[|history| - 1].kickoff) as real / SECONDS_PER_DAY)
  }

  function Flag(condition: bool): int {
    if condition then 1 else 0
  }

  function FeaturesOf(p: Pregame, season: int, k: Knowledge): Features {
    var snap := LastValue(Pluck(k.player, (i: PlayerItem) => i.snapShare));
    var route := LastValue(Pluck(k.player, (i: PlayerItem) => i.routeParticipation));
    Features(
      LastValue(Pluck(k.player, (i: PlayerItem) => i.receptions)),
      LastValue(Pluck(k.player, (i: PlayerItem) => i.targets)),
      LastValue(Pluck(k.player, (i: PlayerItem) => i.yards)),
      SeasonMean(k.playerSeason, (i: PlayerItem) => i.receptions),
      SeasonMean(k.playerSeason, (i: PlayerItem) => i.targets),
      SeasonMean(k.playerSeason, (i: PlayerItem) => i.yards),
      |k.player|, snap, route, Flag(p.isHome), RestDays(p.kickoff, k.player), p.week, season, Flag(k.player != []),
      PlayerWindowOf(k.player, 3), PlayerWindowOf(k.player, 5), PlayerWindowOf(k.player, 8),
      ContextWindowOf(k, 3), ContextWindowOf(k, 5), Flag(snap.None?), Flag(route.None?))
  }

  datatype FeatureRow = FeatureRow(pregame: Pregame, features: Features, actualReceptions: real)

  // ---- what one game contributes to each history ---------------------------

  function SeasonOf(game: Game): int
    requires game != []
  {
    game[0].pregame.season
  }

  function GameIdOf(game: Game): string
    requires game != []
  {
    game[0].pregame.gameId
  }

  function PlayerUpdates(x: Inputs, game: Game): seq<(string, PlayerItem)>
    requires game != []
  {
    seq(|game|, i requires 0 <= i < |game| =>
      (game[i].pregame.player, PlayerItemOf(x, SeasonOf(game), GameIdOf(game), game[i])))
  }

  function PlayerSeasonUpdates(x: Inputs, game: Game): seq<((string, int), PlayerItem)>
    requires game != []
  {
    seq(|game|, i requires 0 <= i < |game| =>
      ((game[i].pregame.player, SeasonOf(game)), PlayerItemOf(x, SeasonOf(game), GameIdOf(game), game[i])))
  }

  /** The teams of the first `n` rows, each once. */
  function TeamsOf(game: Game, n: nat): seq<string>
    requires n <= |game|
  {
    if n == 0 then []
    else
      var teams := TeamsOf(game, n - 1);
      if game[n - 1].pregame.team in teams then teams else teams + [game[n - 1].pregame.team]
  }

  function SortedTeams(game: Game): seq<string> {
    Sort(TeamsOf(game, |game|), TextLess)
  }

  function OffenseUpdates(x: Inputs, game: Game, teams: seq<string>): seq<((int, string), OffenseItem)>
    requires game != []
  {
    if teams == [] then []
    else
      var n := |teams| - 1;
      var context := ContextOf(x, (SeasonOf(game), GameIdOf(game), teams[n]));
      OffenseUpdates(x, game, teams[..n])
        + if context.None? then [] else [((SeasonOf(game), context.value.team), OffenseOf(context.value))]
  }

  function DefenseUpdates(x: Inputs, game: Game, teams: seq<string>): seq<((int, string), DefenseItem)>
    requires game != []
  {
    if teams == [] then []
    else
      var n := |teams| - 1;
      var context := ContextOf(x, (SeasonOf(game), GameIdOf(game), teams[n]));
      DefenseUpdates(x, game, teams[..n])
        + if context.None? then [] else [((SeasonOf(game), context.value.opponent), DefenseOf(context.value, game))]
  }

  // ---- the definition by brute force ---------------------------------------

  predicate NoEmptyGame(games: seq<Game>) {
    forall k :: 0 <= k < |games| ==> games[k] != []
  }

  /** All contributions of the games before position `k`, in processing order. */
  function AllPlayer(x: Inputs, games: seq<Game>, k: nat): seq<(string, PlayerItem)>
    requires NoEmptyGame(games) && k <= |games|
  {
    if k == 0 then [] else AllPlayer(x, games, k - 1) + PlayerUpdates(x, games[k - 1])
  }

  function AllPlayerSeason(x: Inputs, games: seq<Game>, k: nat): seq<((string, int), PlayerItem)>
    requires NoEmptyGame(games) && k <= |games|
  {
    if k == 0 then [] else AllPlayerSeason(x, games, k - 1) + PlayerSeasonUpdates(x, games[k - 1])
  }

  function AllOffense(x: Inputs, games: seq<Game>, k: nat): seq<((int, string), OffenseItem)>
    requires NoEmptyGame(games) && k <= |games|
  {
    if k == 0 then [] else AllOffense(x, games, k - 1) + OffenseUpdates(x, games[k - 1], SortedTeams(games[k - 1]))
  }

  function AllDefense(x: Inputs, games: seq<Game>, k: nat): seq<((int, string), DefenseItem)>
    requires NoEmptyGame(games) && k <= |games|
  {
    if k == 0 then [] else AllDefense(x, games, k - 1) + DefenseUpdates(x, games[k - 1], SortedTeams(games[k - 1]))
  }

  function KnowledgeBefore(x: Inputs, games: seq<Game>, k: nat, p: Pregame): Knowledge
    requires NoEmptyGame(games) && k < |games|
  {
    var season := SeasonOf(games[k]);
    Knowledge(
      Select(AllPlayer(x, games, k), p.player), Select(AllPlayerSeason(x, games, k), (p.player, season)),
      Select(AllOffense(x, games, k), (season, p.team)), Select(AllDefense(x, games, k), (season, p.opponent)))
  }

  function FeatureRowOf(x: Inputs, games: seq<Game>, k: nat, row: Row): FeatureRow
    requires NoEmptyGame(games) && k < |games|
  {
    FeatureRow(row.pregame, FeaturesOf(row.pregame, SeasonOf(games[k]), KnowledgeBefore(x, games, k, row.pregame)),
               row.outcome.actualReceptions)
  }

  function GameFeatures(x: Inputs, games: seq<Game>, k: nat): seq<FeatureRow>
    requires NoEmptyGame(games) && k < |games|
  {
    seq(|games[k]|, i requires 0 <= i < |games[k]| => FeatureRowOf(x, games, k, games[k][i]))
  }

  function TableBefore(x: Inputs, games: seq<Game>, k: nat): seq<FeatureRow>
    requires NoEmptyGame(games) && k <= |games|
  {
    if k == 0 then [] else TableBefore(x, games, k - 1) + GameFeatures(x, games, k - 1)
  }

  // ---- the loop ------------------------------------------------------------

  /** The four dictionaries of the loop. */
  datatype Dictionaries = Dictionaries(
    players: map<string, seq<PlayerItem>>, playerSeasons: map<(string, int), seq<PlayerItem>>,
    offenses: map<(int, string), seq<OffenseItem>>, defenses: map<(int, string), seq<DefenseItem>>)

  /** The row emitted from what the dictionaries hold for the player, the team and the opponent. */
  function EmittedRow(row: Row, season: int, d: Dictionaries): FeatureRow {
    var p := row.pregame;
    FeatureRow(
      p,
      FeaturesOf(p, season, Knowledge(Lookup(d.players, p.player), Lookup(d.playerSeasons, (p.player, season)),
                                      Lookup(d.offenses, (season, p.team)), Lookup(d.defenses, (season, p.opponent)))),
      row.outcome.actualReceptions)
  }

  /** The rows of one game, the player updates they leave behind, and the teams seen. */
  method EmitGame(x: Inputs, game: Game, d: Dictionaries)
    returns (rows: seq<FeatureRow>, updates: seq<(string, PlayerItem)>, teams: seq<string>)
    requires game != []
    ensures |rows| == |game| && forall i :: 0 <= i < |game| ==> rows[i] == EmittedRow(game[i], SeasonOf(game), d)
    ensures updates == PlayerUpdates(x, game)
    ensures teams == TeamsOf(game, |game|)
  {
    hide EmittedRow, PlayerItemOf;
    var season, gameId := SeasonOf(game), GameIdOf(game);
    rows, updates, teams := [], [], [];
    for i := 0 to |game|
      invariant |rows| == i && forall j :: 0 <= j < i ==> rows[j] == EmittedRow(game[j], season, d)
      invariant updates == PlayerUpdates(x, game)[..i]
      invariant teams == TeamsOf(game, i)
    {
      var row := game[i];
      rows := rows + [EmittedRow(row, season, d)];
      updates := updates + [(row.pregame.player, PlayerItemOf(x, season, gameId, row))];
      if row.pregame.team !in teams {
        teams := teams + [row.pregame.team];
      }
    }
  }

  /** The updates of the teams seen, in text order of the team. */
  method TeamUpdates(x: Inputs, game: Game, teams: seq<string>)
    returns (offense: seq<((int, string), OffenseItem)>, defense: seq<((int, string), DefenseItem)>)
    requires game != []
    ensures offense == OffenseUpdates(x, game, teams) && defense == DefenseUpdates(x, game, teams)
  {
    hide OffenseOf, DefenseOf;
    var season, gameId := SeasonOf(game), GameIdOf(game);
    offense, defense := [], [];
    for i := 0 to |teams|
      invariant offense == OffenseUpdates(x, game, teams[..i]) && defense == DefenseUpdates(x, game, teams[..i])
    {
      assert teams[..i + 1][..i] == teams[..i];
      var key := (season, gameId, teams[i]);
      if key in x.teams {
        var t := x.teams[key];
        offense := offense + [((season, t.team), OffenseOf(t))];
        defense := defense + [((season, t.opponent), DefenseOf(t, game))];
      }
    }
    assert teams[..|teams|] == teams;
  }

  function WithSeason(updates: seq<(string, PlayerItem)>, season: int): seq<((string, int), PlayerItem)> {
    seq(|updates|, i requires 0 <= i < |updates| => ((updates[i].0, season), updates[i].1))
  }

  /** The dictionaries hold exactly the contributions of the games before position `k`. */
  ghost predicate RecordsBefore(x: Inputs, games: seq<Game>, k: nat, d: Dictionaries)
    requires NoEmptyGame(games) && k <= |games|
  {
    && Records(d.players, AllPlayer(x, games, k)) && Records(d.playerSeasons, AllPlayerSeason(x, games, k))
    && Records(d.offenses, AllOffense(x, games, k)) && Records(d.defenses, AllDefense(x, games, k))
  }

  /** The incremental histories compute exactly the brute-force table. */
  method BuildRows(x: Inputs, games: seq<Game>) returns (output: seq<FeatureRow>)
    requires NoEmptyGame(games)
    ensures output == TableBefore(x, games, |games|)
  {
    hide FeaturesOf, Lookup, Select, PlayerUpdates, OffenseUpdates, DefenseUpdates, SortedTeams, TeamsOf, Records;
    var d := Dictionaries(map[], map[], map[], map[]);
    NothingRecorded(d.players);
    NothingRecorded(d.playerSeasons);
    NothingRecorded(d.offenses);
    NothingRecorded(d.defenses);
    output := [];
    for k := 0 to |games|
      invariant RecordsBefore(x, games, k, d)
      invariant output == TableBefore(x, games, k)
    {
      var game := games[k];
      var rows, updates, teams := EmitGame(x, game, d);
      RowsAreFeatures(x, games, k, d, rows);
      output := output + rows;
      SeasonUpdatesAgree(x, game);
      SortedTeamsAre(game);
      var players := AppendAll(d.players, AllPlayer(x, games, k), updates);
      var playerSeasons := AppendAll(d.playerSeasons, AllPlayerSeason(x, games, k),
                                     WithSeason(updates, SeasonOf(game)));
      var offense, defense := TeamUpdates(x, game, Sort(teams, TextLess));
      var offenses := AppendAll(d.offenses, AllOffense(x, games, k), offense);
      var defenses := AppendAll(d.defenses, AllDefense(x, games, k), defense);
      d := Dictionaries(players, playerSeasons, offenses, defenses);
    }
  }

  lemma NothingRecorded<K(!new), V>(history: map<K, seq<V>>)
    requires history == map[]
    ensures Records(history, [])
  {
  }

  lemma SortedTeamsAre(game: Game)
    ensures SortedTeams(game) == Sort(TeamsOf(game, |game|), TextLess)
  {
  }

  lemma SeasonUpdatesAgree(x: Inputs, game: Game)
    requires game != []
    ensures WithSeason(PlayerUpdates(x, game), SeasonOf(game)) == PlayerSeasonUpdates(x, game)
  {
    hide PlayerItemOf;
  }

  lemma RowsAreFeatures(x: Inputs, games: seq<Game>, k: nat, d: Dictionaries, rows: seq<FeatureRow>)
    requires NoEmptyGame(games) && k < |games| && RecordsBefore(x, games, k, d)
    requires |rows| == |games[k]|
    requires forall i :: 0 <= i < |games[k]| ==> rows[i] == EmittedRow(games[k][i], SeasonOf(games[k]), d)
    ensures rows == GameFeatures(x, games, k)
  {
    hide FeaturesOf, Lookup, Select, AllPlayer, AllPlayerSeason, AllOffense, AllDefense;
    forall i | 0 <= i < |rows| ensures rows[i] == GameFeatures(x, games, k)[i] {
      var p, season := games[k][i].pregame, SeasonOf(games[k]);
      assert Lookup(d.players, p.player) == Select(AllPlayer(x, games, k), p.player);
      assert Lookup(d.playerSeasons, (p.player, season)) == Select(AllPlayerSeason(x, games, k), (p.player, season));
      assert Lookup(d.offenses, (season, p.team)) == Select(AllOffense(x, games, k), (season, p.team));
      assert Lookup(d.defenses, (season, p.opponent)) == Select(AllDefense(x, games, k), (season, p.opponent));
    }
  }

  // ---- from an unordered table ---------------------------------------------

  /** Chronological order of rows: kickoff, then game, then player. */
  predicate RowLess(a: Pregame, b: Pregame) {
    || a.kickoff < b.kickoff
    || (a.kickoff == b.kickoff
        && (TextLess(a.gameId, b.gameId) || (a.gameId == b.gameId && TextLess(a.player, b.player))))
  }

  function OfGame(rows: seq<Row>, gameId: string): Game {
    if rows == [] then []
    else
      var n := |rows| - 1;
      OfGame(rows[..n], gameId) + if rows[n].pregame.gameId == gameId then [rows[n]] else []
  }

  function NotOfGame(rows: seq<Row>, gameId: string): (rest: seq<Row>)
    ensures |rest| <= |rows|
    ensures rows != [] && rows[0].pregame.gameId == gameId ==> |rest| < |rows|
  {
    if rows == [] then []
    else
      var n := |rows| - 1;
      NotOfGame(rows[..n], gameId) + if rows[n].pregame.gameId == gameId then [] else [rows[n]]
  }

  /** Groups by game in order of first appearance, each group in the order of the rows. */
  function Partition(rows: seq<Row>): seq<Game>
    decreases |rows|
  {
    if rows == [] then [] else
    var gameId := rows[0].pregame.gameId;
    [OfGame(rows, gameId)] + Partition(NotOfGame(rows, gameId))
  }

  function Games(table: seq<Row>): seq<Game> {
    Partition(Sort(table, (a: Row, b: Row) => RowLess(a.pregame, b.pregame)))
  }

  method BuildFeatureTable(x: Inputs, table: seq<Row>) returns (output: seq<FeatureRow>)
    ensures NoEmptyGame(Games(table))
    ensures output == Sort(TableBefore(x, Games(table), |Games(table)|),
                           (a: FeatureRow, b: FeatureRow) => RowLess(a.pregame, b.pregame))
  {
    var games := Games(table);
    PartitionHasNoEmptyGame(Sort(table, (a: Row, b: Row) => RowLess(a.pregame, b.pregame)));
    var rows := BuildRows(x, games);
    output := Sort(rows, (a: FeatureRow, b: FeatureRow) => RowLess(a.pregame, b.pregame));
  }

  lemma {:induction false} FirstRowIsOfGame(rows: seq<Row>, gameId: string, i: nat)
    requires i < |rows| && rows[i].pregame.gameId == gameId
    ensures OfGame(rows, gameId) != []
    decreases |rows|
  {
    if i < |rows| - 1 {
      FirstRowIsOfGame(rows[..|rows| - 1], gameId, i);
    }
  }

  lemma {:induction false} PartitionHasNoEmptyGame(rows: seq<Row>)
    ensures NoEmptyGame(Partition(rows))
    decreases |rows|
  {
    if rows != [] {
      FirstRowIsOfGame(rows, rows[0].pregame.gameId, 0);
      PartitionHasNoEmptyGame(NotOfGame(rows, rows[0].pregame.gameId));
    }
  }
}
