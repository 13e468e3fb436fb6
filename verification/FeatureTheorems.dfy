/** What the feature table promises: nothing of the current or a later game, nothing of the order of the input. */
module FeatureTheorems {
  import opened Foundations
  import opened Numerics
  import opened Histories
  import opened Ordering
  import opened FeatureTable

  // ---- window statistics ---------------------------------------------------

  /** A rolling mean looks at the last `min(window, n)` values only, or at all of them when the window is zero, because
      the slice then starts at minus zero. It is null exactly when there is none or one of them is null, and otherwise
      lies between any bounds those values respect. */
  lemma MeanLooksAtTheWindow(values: seq<Option<real>>, window: nat, low: real, high: real)
    ensures var first := if window == 0 || window >= |values| then 0 else |values| - window;
            var mean := MeanOf(values, window);
            && (mean.Some? <==> values != [] && forall i :: first <= i < |values| ==> values[i].Some?)
            && (mean.Some? && (forall i :: first <= i < |values| ==> low <= values[i].value <= high) ==>
                  low <= mean.value <= high)
  {
    var first := if window == 0 || window >= |values| then 0 else |values| - window;
    var observed := LastOf(values, window);
    assert observed == values[first..];
    if MeanOf(values, window).Some? {
      forall i | first <= i < |values| ensures values[i].Some? {
        assert values[i] == observed[i - first];
      }
      if forall i :: first <= i < |values| ==> low <= values[i].value <= high {
        MeanIsBounded(observed, Known, low, high);
      }
    } else if values != [] {
      var i :| 0 <= i < |observed| && observed[i].None?;
      assert values[first + i].None?;
    }
  }

  /** Older values never matter. */
  lemma MeanForgetsOlderValues(older: seq<Option<real>>, values: seq<Option<real>>, window: nat)
    requires 0 < window <= |values|
    ensures MeanOf(older + values, window) == MeanOf(values, window)
  {
    assert LastOf(older + values, window) == LastOf(values, window);
  }

  lemma {:induction false} PairsAreBounded(numerators: seq<Option<real>>, denominators: seq<Option<real>>)
    requires |numerators| == |denominators|
    requires forall i :: 0 <= i < |numerators| ==>
               numerators[i].Some? && denominators[i].Some? ==> 0.0 <= numerators[i].value <= denominators[i].value
    ensures var pairs := KnownPairs(numerators, denominators); 0.0 <= Numerators(pairs) <= Denominators(pairs)
  {
    if numerators != [] {
      var n := |numerators| - 1;
      PairsAreBounded(numerators[..n], denominators[..n]);
      var earlier := KnownPairs(numerators[..n], denominators[..n]);
      assert KnownPairs(numerators, denominators) == earlier
        || KnownPairs(numerators, denominators)[..|earlier|] == earlier;
    }
  }

  lemma RatioIsAProportion(numerators: seq<Option<real>>, denominators: seq<Option<real>>, window: nat)
    requires |numerators| == |denominators|
    requires forall i :: 0 <= i < |numerators| ==>
               numerators[i].Some? && denominators[i].Some? ==> 0.0 <= numerators[i].value <= denominators[i].value
    ensures var ratio := RatioOf(numerators, denominators, window); ratio.Some? ==> 0.0 <= ratio.value <= 1.0
  {
    var a, b := LastOf(numerators, window), LastOf(denominators, window);
    PairsAreBounded(a, b);
    var pairs := KnownPairs(a, b);
    if RatioOf(numerators, denominators, window).Some? {
      QuotientIsBounded(Numerators(pairs), Denominators(pairs), 0.0, 1.0);
    }
  }

  // ---- histories are exactly the earlier rows ------------------------------

  predicate ValidOutcomes(games: seq<Game>) {
    forall k, i :: 0 <= k < |games| && 0 <= i < |games[k]| ==>
      0.0 <= games[k][i].outcome.receptions <= games[k][i].outcome.targets
  }

  ghost predicate ValidItems(items: seq<PlayerItem>) {
    forall i :: 0 <= i < |items| ==>
      && items[i].receptions.Some? && items[i].targets.Some?
      && 0.0 <= items[i].receptions.value <= items[i].targets.value
  }

  lemma {:induction false} SelectKeeps<K, V>(updates: seq<(K, V)>, key: K, i: nat) returns (j: nat)
    requires i < |Select(updates, key)|
    ensures j < |updates| && updates[j] == (key, Select(updates, key)[i])
  {
    var n := |updates| - 1;
    if i < |Select(updates[..n], key)| {
      j := SelectKeeps(updates[..n], key, i);
    } else {
      j := n;
    }
  }

  lemma {:induction false} AllPlayerAreItems(x: Inputs, games: seq<Game>, k: nat, j: nat)
    requires NoEmptyGame(games) && ValidOutcomes(games) && k <= |games| && j < |AllPlayer(x, games, k)|
    ensures ValidItems([AllPlayer(x, games, k)[j].1])
    decreases k
  {
    if j < |AllPlayer(x, games, k - 1)| {
      AllPlayerAreItems(x, games, k - 1, j);
    }
  }

  lemma CatchRateIsProportion(x: Inputs, games: seq<Game>, k: nat, row: Row, window: nat)
    requires NoEmptyGame(games) && ValidOutcomes(games) && k < |games|
    ensures var rate := PlayerWindowOf(KnowledgeBefore(x, games, k, row.pregame).player, window).catchRate;
            rate.Some? ==> 0.0 <= rate.value <= 1.0
  {
    var history := KnowledgeBefore(x, games, k, row.pregame).player;
    forall i | 0 <= i < |history| ensures ValidItems([history[i]]) {
      var j := SelectKeeps(AllPlayer(x, games, k), row.pregame.player, i);
      AllPlayerAreItems(x, games, k, j);
    }
    forall i | 0 <= i < |history|
      ensures history[i].receptions.Some? && history[i].targets.Some?
      ensures 0.0 <= history[i].receptions.value <= history[i].targets.value
    {
      assert ValidItems([history[i]]) && [history[i]][0] == history[i];
    }
    RatioIsAProportion(Pluck(history, (i: PlayerItem) => i.receptions), Pluck(history, (i: PlayerItem) => i.targets),
                       window);
  }

  predicate Proportion(value: Option<real>) {
    value.Some? ==> 0.0 <= value.value <= 1.0
  }

  /** Every catch rate of the table is a proportion. */
  lemma CatchRatesAreProportions(x: Inputs, games: seq<Game>, k: nat, i: nat)
    requires NoEmptyGame(games) && ValidOutcomes(games) && k < |games| && i < |games[k]|
    ensures var f := GameFeatures(x, games, k)[i].features;
            Proportion(f.roll3.catchRate) && Proportion(f.roll5.catchRate) && Proportion(f.roll8.catchRate)
  {
    hide PlayerWindowOf, ContextWindowOf, KnowledgeBefore, SeasonMean;
    CatchRateIsProportion(x, games, k, games[k][i], 3);
    CatchRateIsProportion(x, games, k, games[k][i], 5);
    CatchRateIsProportion(x, games, k, games[k][i], 8);
  }

  function OfSeason(items: seq<PlayerItem>, season: int): seq<PlayerItem> {
    if items == [] then []
    else
      var n := |items| - 1;
      OfSeason(items[..n], season) + if items[n].season == season then [items[n]] else []
  }

  lemma {:induction false} OfSeasonDistributes(a: seq<PlayerItem>, b: seq<PlayerItem>, season: int)
    ensures OfSeason(a + b, season) == OfSeason(a, season) + OfSeason(b, season)
  {
    if b == [] {
      assert a + b == a;
    } else {
      var n := |b| - 1;
      OfSeasonDistributes(a, b[..n], season);
      assert (a + b)[..|a| + n] == a + b[..n];
    }
  }

  lemma {:induction false} SeasonSelects(updates: seq<(string, PlayerItem)>, own: int, player: string, season: int)
    requires forall i :: 0 <= i < |updates| ==> updates[i].1.season == own
    ensures Select(WithSeason(updates, own), (player, season)) == OfSeason(Select(updates, player), season)
  {
    if updates != [] {
      var n := |updates| - 1;
      SeasonSelects(updates[..n], own, player, season);
      assert WithSeason(updates, own)[..n] == WithSeason(updates[..n], own);
      var earlier := Select(updates[..n], player);
      assert WithSeason(updates, own)[n] == ((updates[n].0, own), updates[n].1);
      OfSeasonDistributes(earlier, [updates[n].1], season);
      assert [updates[n].1][..0] == [];
      assert earlier + [] == earlier && OfSeason(earlier, season) + [] == OfSeason(earlier, season);
    }
  }

  /** The season history is the player history restricted to the season of the game. */
  lemma {:induction false} SeasonHistoryIsRestriction(x: Inputs, games: seq<Game>, k: nat, player: string, season: int)
    requires NoEmptyGame(games) && k <= |games|
    ensures Select(AllPlayerSeason(x, games, k), (player, season))
              == OfSeason(Select(AllPlayer(x, games, k), player), season)
  {
    hide PlayerItemOf;
    if k > 0 {
      SeasonHistoryIsRestriction(x, games, k - 1, player, season);
      var updates := PlayerUpdates(x, games[k - 1]);
      SeasonUpdatesAgree(x, games[k - 1]);
      ItemsNameSeason(x, games[k - 1]);
      SeasonSelects(updates, SeasonOf(games[k - 1]), player, season);
      SelectDistributes(AllPlayer(x, games, k - 1), updates, player);
      SelectDistributes(AllPlayerSeason(x, games, k - 1), PlayerSeasonUpdates(x, games[k - 1]), (player, season));
      OfSeasonDistributes(Select(AllPlayer(x, games, k - 1), player), Select(updates, player), season);
    }
  }

  lemma ItemsNameSeason(x: Inputs, game: Game)
    requires game != []
    ensures forall i :: 0 <= i < |PlayerUpdates(x, game)| ==> PlayerUpdates(x, game)[i].1.season == SeasonOf(game)
  {
  }

  lemma UpdatesAreSized(x: Inputs, game: Game)
    requires game != []
    ensures |PlayerUpdates(x, game)| == |game|
  {
  }

  /** The player's rows in the games before position `k`, in processing order: nothing but filtering. */
  function RowsFor(game: Game, player: string): seq<Row> {
    if game == [] then []
    else
      var n := |game| - 1;
      RowsFor(game[..n], player) + if game[n].pregame.player == player then [game[n]] else []
  }

  function EarlierRows(games: seq<Game>, k: nat, player: string): seq<Row>
    requires k <= |games|
  {
    if k == 0 then [] else EarlierRows(games, k - 1, player) + RowsFor(games[k - 1], player)
  }

  /** Item by item, a history says what the rows say. */
  ghost predicate Mirrors(items: seq<PlayerItem>, rows: seq<Row>) {
    |items| == |rows| && forall i :: 0 <= i < |rows| ==> MirrorsRow(items[i], rows[i])
  }

  predicate MirrorsRow(item: PlayerItem, row: Row) {
    && item.kickoff == row.pregame.kickoff && item.receptions == Some(row.outcome.receptions)
    && item.targets == Some(row.outcome.targets) && item.yards == Some(row.outcome.yards)
  }

  lemma {:induction false} UpdatesMirrorRows(x: Inputs, game: Game, player: string, n: nat)
    requires game != [] && n <= |game|
    ensures Mirrors(Select(PlayerUpdates(x, game)[..n], player), RowsFor(game[..n], player))
  {
    if n > 0 {
      UpdatesMirrorRows(x, game, player, n - 1);
      assert PlayerUpdates(x, game)[..n][..n - 1] == PlayerUpdates(x, game)[..n - 1];
      assert game[..n][..n - 1] == game[..n - 1];
    }
  }

  lemma MirrorsConcatenate(a: seq<PlayerItem>, b: seq<PlayerItem>, r: seq<Row>, t: seq<Row>)
    requires Mirrors(a, r) && Mirrors(b, t)
    ensures Mirrors(a + b, r + t)
  {
    hide MirrorsRow;
  }

  lemma GameMirrorsRows(x: Inputs, game: Game, player: string)
    requires game != []
    ensures Mirrors(Select(PlayerUpdates(x, game), player), RowsFor(game, player))
  {
    hide PlayerUpdates, Select, RowsFor, Mirrors;
    UpdatesAreSized(x, game);
    UpdatesMirrorRows(x, game, player, |game|);
    assert PlayerUpdates(x, game)[..|game|] == PlayerUpdates(x, game) && game[..|game|] == game;
  }

  /** A player's history mirrors exactly the player's earlier rows. */
  lemma {:induction false} HistoryMirrorsEarlierRows(x: Inputs, games: seq<Game>, k: nat, player: string)
    requires NoEmptyGame(games) && k <= |games|
    ensures Mirrors(Select(AllPlayer(x, games, k), player), EarlierRows(games, k, player))
  {
    if k > 0 {
      OneMoreGame(x, games, k, player);
      hide PlayerUpdates, Select, RowsFor, Mirrors, AllPlayer, EarlierRows;
      HistoryMirrorsEarlierRows(x, games, k - 1, player);
      var game := games[k - 1];
      SelectDistributes(AllPlayer(x, games, k - 1), PlayerUpdates(x, game), player);
      GameMirrorsRows(x, game, player);
      MirrorsConcatenate(Select(AllPlayer(x, games, k - 1), player), Select(PlayerUpdates(x, game), player),
                         EarlierRows(games, k - 1, player), RowsFor(game, player));
    } else {
      assert AllPlayer(x, games, k) == [] && EarlierRows(games, k, player) == [];
    }
  }

  function Receptions(rows: seq<Row>): seq<Option<real>> {
    seq(|rows|, i requires 0 <= i < |rows| => Some(rows[i].outcome.receptions))
  }

  function Targets(rows: seq<Row>): seq<Option<real>> {
    seq(|rows|, i requires 0 <= i < |rows| => Some(rows[i].outcome.targets))
  }

  function Yards(rows: seq<Row>): seq<Option<real>> {
    seq(|rows|, i requires 0 <= i < |rows| => Some(rows[i].outcome.yards))
  }

  predicate WindowReads(w: PlayerWindow, rows: seq<Row>, window: nat) {
    && w.receptions == MeanOf(Receptions(rows), window) && w.targets == MeanOf(Targets(rows), window)
    && w.yards == MeanOf(Yards(rows), window) && w.catchRate == RatioOf(Receptions(rows), Targets(rows), window)
  }

  lemma WindowsReadRows(items: seq<PlayerItem>, rows: seq<Row>, window: nat)
    requires Mirrors(items, rows)
    ensures WindowReads(PlayerWindowOf(items, window), rows, window)
  {
    hide MeanOf, RatioOf;
    PluckedColumns(items, rows);
  }

  lemma PluckedColumns(items: seq<PlayerItem>, rows: seq<Row>)
    requires Mirrors(items, rows)
    ensures Pluck(items, (i: PlayerItem) => i.receptions) == Receptions(rows)
    ensures Pluck(items, (i: PlayerItem) => i.targets) == Targets(rows)
    ensures Pluck(items, (i: PlayerItem) => i.yards) == Yards(rows)
  {
    forall i | 0 <= i < |rows| ensures MirrorsRow(items[i], rows[i]) {
    }
  }

  /** What the features of a player's own results are when `rows` are the player's earlier rows. */
  predicate OwnResultsRead(f: Features, p: Pregame, rows: seq<Row>) {
    && f.gamesPlayedBefore == |rows| && (f.hasPriorHistory == 1 <==> rows != [])
    && f.receptionsLag1 == LastValue(Receptions(rows)) && f.targetsLag1 == LastValue(Targets(rows))
    && f.yardsLag1 == LastValue(Yards(rows))
    && f.restDays == (if rows == [] then None
                      else Some((p.kickoff - rows[|rows| - 1].pregame.kickoff) as real / SECONDS_PER_DAY))
    && WindowReads(f.roll3, rows, 3) && WindowReads(f.roll5, rows, 5) && WindowReads(f.roll8, rows, 8)
  }

  lemma OwnResultsReadRows(x: Inputs, games: seq<Game>, k: nat, i: nat)
    requires NoEmptyGame(games) && k < |games| && i < |games[k]|
    ensures var p := games[k][i].pregame;
            OwnResultsRead(GameFeatures(x, games, k)[i].features, p, EarlierRows(games, k, p.player))
  {
    hide PlayerWindowOf, ContextWindowOf, SeasonMean, WindowReads, Select, AllPlayer, EarlierRows;
    var p := games[k][i].pregame;
    var rows := EarlierRows(games, k, p.player);
    var items := KnowledgeBefore(x, games, k, p).player;
    HistoryMirrorsEarlierRows(x, games, k, p.player);
    PluckedColumns(items, rows);
    WindowsReadRows(items, rows, 3);
    WindowsReadRows(items, rows, 5);
    WindowsReadRows(items, rows, 8);
    if rows != [] {
      assert MirrorsRow(items[|rows| - 1], rows[|rows| - 1]);
    }
  }

  // ---- usage, team and opponent histories ----------------------------------

  /** The rows of one game name one game and one season. */
  predicate Grouped(games: seq<Game>) {
    forall k, i :: 0 <= k < |games| && 0 <= i < |games[k]| ==>
      games[k][i].pregame.gameId == games[k][0].pregame.gameId
      && games[k][i].pregame.season == games[k][0].pregame.season
  }

  predicate MirrorsUsage(x: Inputs, item: PlayerItem, row: Row) {
    var p := row.pregame;
    && item.season == p.season
    && item.snapShare == GetUsage(x.snaps, p.player, p.gameId)
    && item.routeParticipation == GetUsage(x.routes, p.player, p.gameId)
    && item.targetShare == TargetShare(row.outcome.targets, ContextOf(x, (p.season, p.gameId, p.team)))
  }

  ghost predicate UsageMirrors(x: Inputs, items: seq<PlayerItem>, rows: seq<Row>) {
    |items| == |rows| && forall i :: 0 <= i < |rows| ==> MirrorsUsage(x, items[i], rows[i])
  }

  lemma {:induction false} UpdatesMirrorUsage(x: Inputs, game: Game, player: string, n: nat)
    requires game != [] && Grouped([game]) && n <= |game|
    ensures UsageMirrors(x, Select(PlayerUpdates(x, game)[..n], player), RowsFor(game[..n], player))
  {
    if n > 0 {
      UpdatesMirrorUsage(x, game, player, n - 1);
      assert PlayerUpdates(x, game)[..n][..n - 1] == PlayerUpdates(x, game)[..n - 1];
      assert game[..n][..n - 1] == game[..n - 1];
      assert [game][0][n - 1].pregame.gameId == [game][0][0].pregame.gameId;
    }
  }

  lemma GroupedGame(games: seq<Game>, k: nat)
    requires Grouped(games) && k < |games|
    ensures Grouped([games[k]])
  {
  }

  lemma UsageConcatenates(x: Inputs, a: seq<PlayerItem>, b: seq<PlayerItem>, r: seq<Row>, t: seq<Row>)
    requires UsageMirrors(x, a, r) && UsageMirrors(x, b, t)
    ensures UsageMirrors(x, a + b, r + t)
  {
    hide MirrorsUsage;
  }

  /** Selecting from a single update. */
  lemma SelectOne<K, V>(update: (K, V), key: K)
    ensures Select([update], key) == if update.0 == key then [update.1] else []
  {
    assert [update][..0] == [];
  }

  lemma {:induction false} HistoryMirrorsUsage(x: Inputs, games: seq<Game>, k: nat, player: string)
    requires NoEmptyGame(games) && Grouped(games) && k <= |games|
    ensures UsageMirrors(x, Select(AllPlayer(x, games, k), player), EarlierRows(games, k, player))
  {
    if k > 0 {
      OneMoreGame(x, games, k, player);
      hide PlayerUpdates, Select, RowsFor, UsageMirrors, Grouped, AllPlayer, EarlierRows;
      HistoryMirrorsUsage(x, games, k - 1, player);
      var game := games[k - 1];
      GroupedGame(games, k - 1);
      SelectDistributes(AllPlayer(x, games, k - 1), PlayerUpdates(x, game), player);
      GameMirrorsUsage(x, game, player);
      UsageConcatenates(x, Select(AllPlayer(x, games, k - 1), player), Select(PlayerUpdates(x, game), player),
                        EarlierRows(games, k - 1, player), RowsFor(game, player));
    } else {
      assert AllPlayer(x, games, k) == [] && EarlierRows(games, k, player) == [];
    }
  }

  lemma GameMirrorsUsage(x: Inputs, game: Game, player: string)
    requires game != [] && Grouped([game])
    ensures UsageMirrors(x, Select(PlayerUpdates(x, game), player), RowsFor(game, player))
  {
    hide PlayerUpdates, Select, RowsFor, UsageMirrors, Grouped;
    UpdatesAreSized(x, game);
    UpdatesMirrorUsage(x, game, player, |game|);
    assert PlayerUpdates(x, game)[..|game|] == PlayerUpdates(x, game) && game[..|game|] == game;
  }

  lemma OneMoreGame(x: Inputs, games: seq<Game>, k: nat, player: string)
    requires NoEmptyGame(games) && 0 < k <= |games|
    ensures AllPlayer(x, games, k) == AllPlayer(x, games, k - 1) + PlayerUpdates(x, games[k - 1])
    ensures EarlierRows(games, k, player) == EarlierRows(games, k - 1, player) + RowsFor(games[k - 1], player)
  {
  }

  /** Team games are stored under their own team. */
  ghost predicate KeyedByTeam(x: Inputs) {
    forall key :: key in x.teams ==> x.teams[key].team == key.2
  }

  /** The team's retained game, if it played in this game and this season. */
  function OwnGame(x: Inputs, game: Game, season: int, team: string): seq<TeamGame>
    requires game != []
  {
    var key := (SeasonOf(game), GameIdOf(game), team);
    if SeasonOf(game) == season && team in TeamsOf(game, |game|) && key in x.teams then [x.teams[key]] else []
  }

  /** The retained games of a team among the games before position `k` of one season, in processing order. */
  function TeamGamesBefore(x: Inputs, games: seq<Game>, k: nat, season: int, team: string): seq<TeamGame>
    requires NoEmptyGame(games) && k <= |games|
  {
    if k == 0 then [] else TeamGamesBefore(x, games, k - 1, season, team) + OwnGame(x, games[k - 1], season, team)
  }

  function Offenses(teamGames: seq<TeamGame>): seq<OffenseItem> {
    seq(|teamGames|, i requires 0 <= i < |teamGames| => OffenseOf(teamGames[i]))
  }

  lemma {:induction false} TeamsAreDistinct(game: Game, n: nat)
    requires n <= |game|
    ensures NoRepeats(TeamsOf(game, n))
  {
    if n > 0 {
      TeamsAreDistinct(game, n - 1);
    }
  }

  lemma {:induction false} TeamIsUpdatedOnce(x: Inputs, game: Game, teams: seq<string>, season: int, team: string)
    requires game != [] && KeyedByTeam(x) && NoRepeats(teams)
    ensures var key := (SeasonOf(game), GameIdOf(game), team);
            Select(OffenseUpdates(x, game, teams), (season, team))
              == if SeasonOf(game) == season && team in teams && key in x.teams then [OffenseOf(x.teams[key])] else []
  {
    hide OffenseOf;
    if teams != [] {
      var n := |teams| - 1;
      LastIsNew(teams, team);
      hide Select, NoRepeats;
      TeamIsUpdatedOnce(x, game, teams[..n], season, team);
      var key := (SeasonOf(game), GameIdOf(game), teams[n]);
      var earlier := OffenseUpdates(x, game, teams[..n]);
      if key in x.teams {
        var update := ((SeasonOf(game), teams[n]), OffenseOf(x.teams[key]));
        assert OffenseUpdates(x, game, teams) == earlier + [update];
        SelectDistributes(earlier, [update], (season, team));
        SelectOne(update, (season, team));
      } else {
        assert OffenseUpdates(x, game, teams) == earlier + [];
        assert earlier + [] == earlier;
      }
    }
  }

  lemma LastIsNew(teams: seq<string>, team: string)
    requires teams != [] && NoRepeats(teams)
    ensures var n := |teams| - 1;
            && NoRepeats(teams[..n]) && teams[n] !in teams[..n]
            && (team in teams <==> team in teams[..n] || team == teams[n])
  {
    assert teams == teams[..|teams| - 1] + [teams[|teams| - 1]];
  }

  lemma OffensesConcatenate(a: seq<TeamGame>, b: seq<TeamGame>)
    ensures Offenses(a + b) == Offenses(a) + Offenses(b)
  {
    hide OffenseOf;
  }

  lemma OffenseOfOneGame(x: Inputs, game: Game, season: int, team: string)
    requires game != [] && KeyedByTeam(x)
    ensures Select(OffenseUpdates(x, game, SortedTeams(game)), (season, team))
              == Offenses(OwnGame(x, game, season, team))
  {
    hide OffenseOf, OffenseUpdates, Select, TeamsOf, SortedTeams, KeyedByTeam, NoRepeats;
    SortedTeamsAreTeams(game, team);
    TeamIsUpdatedOnce(x, game, SortedTeams(game), season, team);
  }

  /** A team's history is exactly its own retained games before, in the same season. */
  lemma {:induction false} OffenseIsEarlierTeamGames(x: Inputs, games: seq<Game>, k: nat, season: int, team: string)
    requires NoEmptyGame(games) && KeyedByTeam(x) && k <= |games|
    ensures Select(AllOffense(x, games, k), (season, team)) == Offenses(TeamGamesBefore(x, games, k, season, team))
  {
    if k > 0 {
      hide OffenseUpdates, Select, SortedTeams, KeyedByTeam, OwnGame, Offenses;
      OffenseIsEarlierTeamGames(x, games, k - 1, season, team);
      var game := games[k - 1];
      SelectDistributes(AllOffense(x, games, k - 1), OffenseUpdates(x, game, SortedTeams(game)), (season, team));
      OffenseOfOneGame(x, game, season, team);
      OffensesConcatenate(TeamGamesBefore(x, games, k - 1, season, team), OwnGame(x, game, season, team));
    }
  }

  lemma SortedTeamsAreTeams(game: Game, team: string)
    ensures NoRepeats(SortedTeams(game)) && (team in SortedTeams(game) <==> team in TeamsOf(game, |game|))
  {
    hide Sort;
    var teams := TeamsOf(game, |game|);
    TeamsAreDistinct(game, |game|);
    SortKeepsItems(teams, TextLess);
    RepeatsSurvive(teams, Sort(teams, TextLess));
    InTheMultiset(Sort(teams, TextLess), teams, team);
  }

  /** The retained games played against one opponent before position `k` of one season, with their rows. */
  function GamesAgainst(x: Inputs, game: Game, teams: seq<string>, opponent: string): seq<(TeamGame, Game)>
    requires game != []
  {
    if teams == [] then []
    else
      var n := |teams| - 1;
      var context := ContextOf(x, (SeasonOf(game), GameIdOf(game), teams[n]));
      GamesAgainst(x, game, teams[..n], opponent)
        + if context.Some? && context.value.opponent == opponent then [(context.value, game)] else []
  }

  function OpposingGames(x: Inputs, game: Game, season: int, opponent: string): seq<(TeamGame, Game)>
    requires game != []
  {
    if SeasonOf(game) == season then GamesAgainst(x, game, SortedTeams(game), opponent) else []
  }

  function GamesAgainstBefore(x: Inputs, games: seq<Game>, k: nat, season: int, opponent: string): seq<(TeamGame, Game)>
    requires NoEmptyGame(games) && k <= |games|
  {
    if k == 0 then []
    else GamesAgainstBefore(x, games, k - 1, season, opponent) + OpposingGames(x, games[k - 1], season, opponent)
  }

  function Defenses(against: seq<(TeamGame, Game)>): seq<DefenseItem> {
    seq(|against|, i requires 0 <= i < |against| => DefenseOf(against[i].0, against[i].1))
  }

  lemma {:induction false} DefenseUpdatesAreGamesAgainst(x: Inputs, game: Game, teams: seq<string>, season: int,
                                                         opponent: string)
    requires game != []
    ensures Select(DefenseUpdates(x, game, teams), (season, opponent))
              == if SeasonOf(game) == season then Defenses(GamesAgainst(x, game, teams, opponent)) else []
  {
    hide DefenseOf, ContextOf;
    if teams != [] {
      var n := |teams| - 1;
      DefenseUpdatesAreGamesAgainst(x, game, teams[..n], season, opponent);
      var context := ContextOf(x, (SeasonOf(game), GameIdOf(game), teams[n]));
      var earlier := DefenseUpdates(x, game, teams[..n]);
      if context.Some? {
        var update := ((SeasonOf(game), context.value.opponent), DefenseOf(context.value, game));
        assert DefenseUpdates(x, game, teams) == earlier + [update];
        SelectDistributes(earlier, [update], (season, opponent));
        SelectOne(update, (season, opponent));
      } else {
        assert earlier + [] == earlier;
      }
      var against := GamesAgainst(x, game, teams[..n], opponent);
      assert against + [] == against;
    }
  }

  lemma DefensesConcatenate(a: seq<(TeamGame, Game)>, b: seq<(TeamGame, Game)>)
    ensures Defenses(a + b) == Defenses(a) + Defenses(b)
  {
    hide DefenseOf;
  }

  lemma DefenseOfOneGame(x: Inputs, game: Game, season: int, opponent: string)
    requires game != []
    ensures Select(DefenseUpdates(x, game, SortedTeams(game)), (season, opponent))
              == Defenses(OpposingGames(x, game, season, opponent))
  {
    hide DefenseOf, DefenseUpdates, Select, SortedTeams, GamesAgainst;
    DefenseUpdatesAreGamesAgainst(x, game, SortedTeams(game), season, opponent);
  }

  /** An opponent's defensive history is exactly the retained games played against it before, in the same season. */
  lemma {:induction false} DefenseIsEarlierGamesAgainst(x: Inputs, games: seq<Game>, k: nat, season: int,
                                                        opponent: string)
    requires NoEmptyGame(games) && k <= |games|
    ensures Select(AllDefense(x, games, k), (season, opponent))
              == Defenses(GamesAgainstBefore(x, games, k, season, opponent))
  {
    if k > 0 {
      hide DefenseUpdates, Select, SortedTeams, OpposingGames, Defenses;
      DefenseIsEarlierGamesAgainst(x, games, k - 1, season, opponent);
      var game := games[k - 1];
      SelectDistributes(AllDefense(x, games, k - 1), DefenseUpdates(x, game, SortedTeams(game)), (season, opponent));
      DefenseOfOneGame(x, game, season, opponent);
      DefensesConcatenate(GamesAgainstBefore(x, games, k - 1, season, opponent),
                          OpposingGames(x, game, season, opponent));
    }
  }

  // The columns of the context windows, read off rows, team games and games against the opponent.

  function Snaps(x: Inputs, rows: seq<Row>): seq<Option<real>> {
    seq(|rows|, i requires 0 <= i < |rows| => GetUsage(x.snaps, rows[i].pregame.player, rows[i].pregame.gameId))
  }

  function Routes(x: Inputs, rows: seq<Row>): seq<Option<real>> {
    seq(|rows|, i requires 0 <= i < |rows| => GetUsage(x.routes, rows[i].pregame.player, rows[i].pregame.gameId))
  }

  function Shares(x: Inputs, rows: seq<Row>): seq<Option<real>> {
    seq(|rows|, i requires 0 <= i < |rows| =>
      TargetShare(rows[i].outcome.targets,
                  ContextOf(x, (rows[i].pregame.season, rows[i].pregame.gameId, rows[i].pregame.team))))
  }

  function TeamColumn(teamGames: seq<TeamGame>, column: TeamGame -> Option<real>): seq<Option<real>> {
    seq(|teamGames|, i requires 0 <= i < |teamGames| => column(teamGames[i]))
  }

  function AgainstColumn(against: seq<(TeamGame, Game)>, column: (TeamGame, Game) -> Option<real>): seq<Option<real>> {
    seq(|against|, i requires 0 <= i < |against| => column(against[i].0, against[i].1))
  }

  function SumIfAny(rows: seq<Row>, sum: seq<Row> -> real): Option<real> {
    if rows == [] then None else Some(sum(rows))
  }

  predicate ContextReads(w: ContextWindow, x: Inputs, rows: seq<Row>, own: seq<TeamGame>,
                         against: seq<(TeamGame, Game)>, window: nat) {
    && w.snapShare == MeanOf(Snaps(x, rows), window) && w.routeParticipation == MeanOf(Routes(x, rows), window)
    && w.teamAttempts == MeanOf(TeamColumn(own, (t: TeamGame) => t.attempts), window)
    && w.teamCompletions == MeanOf(TeamColumn(own, (t: TeamGame) => t.completions), window)
    && w.teamCompletionRate == MeanOf(TeamColumn(own, (t: TeamGame) => t.completionRate), window)
    && w.teamConcentration == MeanOf(TeamColumn(own, (t: TeamGame) => t.targetConcentration), window)
    && w.attemptsAllowed == MeanOf(AgainstColumn(against, (t: TeamGame, g: Game) => t.attempts), window)
    && w.completionsAllowed == MeanOf(AgainstColumn(against, (t: TeamGame, g: Game) => t.completions), window)
    && w.receptionsAllowed
         == MeanOf(AgainstColumn(against, (t: TeamGame, g: Game) => SumIfAny(RowsOfTeam(g, t.team), SumReceptions)),
                   window)
    && w.targetsAllowed
         == MeanOf(AgainstColumn(against, (t: TeamGame, g: Game) => SumIfAny(RowsOfTeam(g, t.team), SumTargets)),
                   window)
  }

  lemma UsageColumns(x: Inputs, items: seq<PlayerItem>, rows: seq<Row>)
    requires UsageMirrors(x, items, rows)
    ensures Pluck(items, (i: PlayerItem) => i.snapShare) == Snaps(x, rows)
    ensures Pluck(items, (i: PlayerItem) => i.routeParticipation) == Routes(x, rows)
    ensures Pluck(items, (i: PlayerItem) => i.targetShare) == Shares(x, rows)
  {
    forall i | 0 <= i < |rows| ensures MirrorsUsage(x, items[i], rows[i]) {
    }
  }

  lemma OffenseColumns(own: seq<TeamGame>)
    ensures var items := Offenses(own);
            && Pluck(items, (i: OffenseItem) => i.attempts) == TeamColumn(own, (t: TeamGame) => t.attempts)
            && Pluck(items, (i: OffenseItem) => i.completions) == TeamColumn(own, (t: TeamGame) => t.completions)
            && Pluck(items, (i: OffenseItem) => i.completionRate) == TeamColumn(own, (t: TeamGame) => t.completionRate)
            && Pluck(items, (i: OffenseItem) => i.targetConcentration)
                 == TeamColumn(own, (t: TeamGame) => t.targetConcentration)
  {
  }

  lemma DefenseColumns(against: seq<(TeamGame, Game)>)
    ensures var items := Defenses(against);
            && Pluck(items, (i: DefenseItem) => i.attemptsAllowed)
                 == AgainstColumn(against, (t: TeamGame, g: Game) => t.attempts)
            && Pluck(items, (i: DefenseItem) => i.completionsAllowed)
                 == AgainstColumn(against, (t: TeamGame, g: Game) => t.completions)
            && Pluck(items, (i: DefenseItem) => i.receptionsAllowed)
                 == AgainstColumn(against, (t: TeamGame, g: Game) => SumIfAny(RowsOfTeam(g, t.team), SumReceptions))
            && Pluck(items, (i: DefenseItem) => i.targetsAllowed)
                 == AgainstColumn(against, (t: TeamGame, g: Game) => SumIfAny(RowsOfTeam(g, t.team), SumTargets))
  {
    hide RowsOfTeam, SumReceptions, SumTargets;
  }

  lemma ContextWindowReads(x: Inputs, known: Knowledge, rows: seq<Row>, own: seq<TeamGame>,
                           against: seq<(TeamGame, Game)>, window: nat)
    requires UsageMirrors(x, known.player, rows) && known.offense == Offenses(own) && known.defense == Defenses(against)
    ensures ContextReads(ContextWindowOf(known, window), x, rows, own, against, window)
  {
    hide MeanOf, Pluck, TeamColumn, AgainstColumn, Snaps, Routes, Shares, Offenses, Defenses, UsageMirrors;
    UsageColumns(x, known.player, rows);
    OffenseColumns(own);
    DefenseColumns(against);
  }

  /** What the usage, team and opponent features are, given the player's earlier rows, the team's earlier games and the
      earlier games against the opponent. */
  predicate ContextFeaturesRead(f: Features, x: Inputs, rows: seq<Row>, own: seq<TeamGame>,
                                against: seq<(TeamGame, Game)>) {
    && ContextReads(f.context3, x, rows, own, against, 3) && ContextReads(f.context5, x, rows, own, against, 5)
    && f.snapShareLag1 == LastValue(Snaps(x, rows)) && f.routeParticipationLag1 == LastValue(Routes(x, rows))
    && (f.snapShareMissing == 1 <==> f.snapShareLag1.None?)
    && (f.routeParticipationMissing == 1 <==> f.routeParticipationLag1.None?)
    && f.roll3.targetShare == MeanOf(Shares(x, rows), 3) && f.roll5.targetShare == MeanOf(Shares(x, rows), 5)
    && f.roll8.targetShare == MeanOf(Shares(x, rows), 8)
  }

  lemma ContextReadsEarlierGames(x: Inputs, games: seq<Game>, k: nat, i: nat)
    requires NoEmptyGame(games) && Grouped(games) && KeyedByTeam(x) && k < |games| && i < |games[k]|
    ensures var p, season := games[k][i].pregame, SeasonOf(games[k]);
            ContextFeaturesRead(GameFeatures(x, games, k)[i].features, x, EarlierRows(games, k, p.player),
                                TeamGamesBefore(x, games, k, season, p.team),
                                GamesAgainstBefore(x, games, k, season, p.opponent))
  {
    hide SeasonMean, ContextReads, ContextWindowOf, Select, AllPlayer, AllPlayerSeason, AllOffense, AllDefense,
         EarlierRows, MeanOf, RatioOf, TeamGamesBefore, GamesAgainstBefore, Snaps, Routes, Shares, UsageMirrors,
         LastValue, Grouped, Pluck;
    var p, season := games[k][i].pregame, SeasonOf(games[k]);
    var known := KnowledgeBefore(x, games, k, p);
    var rows := EarlierRows(games, k, p.player);
    var own, against := TeamGamesBefore(x, games, k, season, p.team),
                        GamesAgainstBefore(x, games, k, season, p.opponent);
    HistoryMirrorsUsage(x, games, k, p.player);
    OffenseIsEarlierTeamGames(x, games, k, season, p.team);
    DefenseIsEarlierGamesAgainst(x, games, k, season, p.opponent);
    UsageColumns(x, known.player, rows);
    ContextWindowReads(x, known, rows, own, against, 3);
    ContextWindowReads(x, known, rows, own, against, 5);
  }

  /** Grouping by game yields games whose rows all name that game. */
  lemma {:induction false} PartitionGroupsGames(rows: seq<Row>, k: nat, i: nat)
    requires k < |Partition(rows)| && i < |Partition(rows)[k]|
    ensures Partition(rows)[k][i].pregame.gameId == Partition(rows)[k][0].pregame.gameId
    decreases |rows|
  {
    var gameId := rows[0].pregame.gameId;
    GroupRows(rows, gameId);
    if k == 0 {
      assert OfGame(rows, gameId)[i] in OfGame(rows, gameId) && OfGame(rows, gameId)[0] in OfGame(rows, gameId);
    } else {
      PartitionGroupsGames(NotOfGame(rows, gameId), k - 1, i);
    }
  }

  // ---- season means --------------------------------------------------------

  function InSeason(rows: seq<Row>, season: int): seq<Row> {
    if rows == [] then []
    else
      var n := |rows| - 1;
      InSeason(rows[..n], season) + if rows[n].pregame.season == season then [rows[n]] else []
  }

  lemma {:induction false} SeasonMirrors(x: Inputs, items: seq<PlayerItem>, rows: seq<Row>, season: int)
    requires Mirrors(items, rows) && UsageMirrors(x, items, rows)
    ensures Mirrors(OfSeason(items, season), InSeason(rows, season))
  {
    if rows != [] {
      var n := |rows| - 1;
      assert MirrorsRow(items[n], rows[n]) && MirrorsUsage(x, items[n], rows[n]);
      hide MirrorsRow;
      SeasonMirrors(x, items[..n], rows[..n], season);
    }
  }

  /** The mean of a whole column. */
  function WholeMean(values: seq<Option<real>>): Option<real> {
    if values == [] then None else MeanOf(values, |values|)
  }

  predicate SeasonMeansRead(f: Features, rows: seq<Row>) {
    && f.receptionsSeasonMean == WholeMean(Receptions(rows)) && f.targetsSeasonMean == WholeMean(Targets(rows))
    && f.yardsSeasonMean == WholeMean(Yards(rows))
  }

  lemma SeasonMeansReadRows(x: Inputs, games: seq<Game>, k: nat, i: nat)
    requires NoEmptyGame(games) && Grouped(games) && k < |games| && i < |games[k]|
    ensures var p := games[k][i].pregame;
            SeasonMeansRead(GameFeatures(x, games, k)[i].features,
                            InSeason(EarlierRows(games, k, p.player), SeasonOf(games[k])))
  {
    hide PlayerWindowOf, ContextWindowOf, Select, AllPlayer, AllPlayerSeason, EarlierRows, MeanOf, Grouped, Mirrors,
         UsageMirrors, OfSeason, InSeason;
    var p, season := games[k][i].pregame, SeasonOf(games[k]);
    var items, rows := Select(AllPlayer(x, games, k), p.player), EarlierRows(games, k, p.player);
    HistoryMirrorsEarlierRows(x, games, k, p.player);
    HistoryMirrorsUsage(x, games, k, p.player);
    SeasonMirrors(x, items, rows, season);
    SeasonHistoryIsRestriction(x, games, k, p.player, season);
    PluckedColumns(OfSeason(items, season), InSeason(rows, season));
  }

  // ---- the games of a table ------------------------------------------------

  predicate OneSeasonPerGame(table: seq<Row>) {
    forall a, b :: a in table && b in table && a.pregame.gameId == b.pregame.gameId ==>
      a.pregame.season == b.pregame.season
  }

  /** The games the builder makes of a table are grouped. */
  lemma GamesAreGrouped(table: seq<Row>)
    requires OneSeasonPerGame(table)
    ensures NoEmptyGame(Games(table)) && Grouped(Games(table))
  {
    hide Partition, RowLess, Sort;
    var less := (a: Row, b: Row) => RowLess(a.pregame, b.pregame);
    var sorted: seq<Row>, games: seq<Game> := Sort(table, less), Games(table);
    PartitionHasNoEmptyGame(sorted);
    SortKeepsItems(table, less);
    forall k: nat, i: nat | k < |games| && i < |games[k]|
      ensures games[k][i].pregame.gameId == games[k][0].pregame.gameId
      ensures games[k][i].pregame.season == games[k][0].pregame.season
    {
      PartitionGroupsGames(sorted, k, i);
      PartitionRows(sorted, k, games[k][i]);
      PartitionRows(sorted, k, games[k][0]);
      InTheMultiset(sorted, table, games[k][i]);
      InTheMultiset(sorted, table, games[k][0]);
    }
  }

  lemma {:induction false} TeamContextIsKeyed(rows: seq<TeamRow>)
    ensures forall key :: key in TeamContext(rows) ==> TeamContext(rows)[key].team == key.2
  {
    if rows != [] {
      TeamContextIsKeyed(rows[..|rows| - 1]);
    }
  }

  /** Every feature of the player's own results is read off the player's earlier rows and nothing else: the last row,
      the means and ratios of the last few, their number, the days since the last kickoff, and the means of the
      season. */
  lemma FeaturesReadEarlierRows(x: Inputs, table: seq<Row>, k: nat, i: nat)
    requires OneSeasonPerGame(table) && k < |Games(table)| && i < |Games(table)[k]|
    ensures NoEmptyGame(Games(table))
    ensures var p := Games(table)[k][i].pregame;
            var f, rows := GameFeatures(x, Games(table), k)[i].features, EarlierRows(Games(table), k, p.player);
            OwnResultsRead(f, p, rows) && SeasonMeansRead(f, InSeason(rows, p.season))
  {
    hide OwnResultsRead, SeasonMeansRead, GameFeatures, EarlierRows, InSeason, Games, NoEmptyGame;
    GamesAreGrouped(table);
    OwnResultsReadRows(x, Games(table), k, i);
    SeasonMeansReadRows(x, Games(table), k, i);
  }

  /** Every usage, team and opponent feature is read off the player's earlier rows, the team's earlier games and the
      earlier games against the opponent, the latter two of the same season, and nothing else. */
  lemma ContextFeaturesReadEarlierGames(x: Inputs, teamRows: seq<TeamRow>, table: seq<Row>, k: nat, i: nat)
    requires x.teams == TeamContext(teamRows) && OneSeasonPerGame(table) && k < |Games(table)| && i < |Games(table)[k]|
    ensures NoEmptyGame(Games(table))
    ensures var games := Games(table); var p := games[k][i].pregame;
            ContextFeaturesRead(GameFeatures(x, games, k)[i].features, x, EarlierRows(games, k, p.player),
                                TeamGamesBefore(x, games, k, p.season, p.team),
                                GamesAgainstBefore(x, games, k, p.season, p.opponent))
  {
    hide ContextFeaturesRead, GameFeatures, EarlierRows, Games, NoEmptyGame, TeamGamesBefore, GamesAgainstBefore;
    GamesAreGrouped(table);
    TeamContextIsKeyed(teamRows);
    ContextReadsEarlierGames(x, Games(table), k, i);
  }

  // ---- non-interference by position ----------------------------------------

  ghost predicate SamePregames(a: Game, b: Game) {
    |a| == |b| && forall i :: 0 <= i < |a| ==> a[i].pregame == b[i].pregame
  }

  /** Both inputs say the same about one game. */
  ghost predicate SameInputs(x: Inputs, y: Inputs, gameId: string) {
    && (forall season, team :: ContextOf(x, (season, gameId, team)) == ContextOf(y, (season, gameId, team)))
    && (forall player :: GetUsage(x.snaps, player, gameId) == GetUsage(y.snaps, player, gameId))
    && (forall player :: GetUsage(x.routes, player, gameId) == GetUsage(y.routes, player, gameId))
  }

  /** The two seasons coincide before position `k`; nothing is said about results from `k` on. */
  ghost predicate SamePast(x: Inputs, y: Inputs, games: seq<Game>, other: seq<Game>, k: nat) {
    && k <= |games| && k <= |other| && NoEmptyGame(games) && NoEmptyGame(other)
    && (forall j :: 0 <= j < k ==> games[j] == other[j] && SameInputs(x, y, GameIdOf(games[j])))
  }

  lemma {:induction false} SameTeamUpdates(x: Inputs, y: Inputs, game: Game, teams: seq<string>)
    requires game != [] && SameInputs(x, y, GameIdOf(game))
    ensures OffenseUpdates(x, game, teams) == OffenseUpdates(y, game, teams)
    ensures DefenseUpdates(x, game, teams) == DefenseUpdates(y, game, teams)
  {
    hide OffenseOf, DefenseOf, ContextOf;
    if teams != [] {
      SameTeamUpdates(x, y, game, teams[..|teams| - 1]);
    }
  }

  lemma SamePlayerUpdates(x: Inputs, y: Inputs, game: Game)
    requires game != [] && SameInputs(x, y, GameIdOf(game))
    ensures PlayerUpdates(x, game) == PlayerUpdates(y, game)
    ensures PlayerSeasonUpdates(x, game) == PlayerSeasonUpdates(y, game)
  {
    forall i | 0 <= i < |game|
      ensures PlayerItemOf(x, SeasonOf(game), GameIdOf(game), game[i])
                == PlayerItemOf(y, SeasonOf(game), GameIdOf(game), game[i])
    {
    }
  }

  lemma {:induction false} SameHistories(x: Inputs, y: Inputs, games: seq<Game>, other: seq<Game>, k: nat)
    requires SamePast(x, y, games, other, k)
    ensures AllPlayer(x, games, k) == AllPlayer(y, other, k)
    ensures AllPlayerSeason(x, games, k) == AllPlayerSeason(y, other, k)
    ensures AllOffense(x, games, k) == AllOffense(y, other, k)
    ensures AllDefense(x, games, k) == AllDefense(y, other, k)
  {
    hide PlayerUpdates, PlayerSeasonUpdates, OffenseUpdates, DefenseUpdates, SortedTeams, SameInputs;
    if k > 0 {
      SameHistories(x, y, games, other, k - 1);
      SamePlayerUpdates(x, y, games[k - 1]);
      SameTeamUpdates(x, y, games[k - 1], SortedTeams(games[k - 1]));
    }
  }

  ghost predicate SameFeatures(a: seq<FeatureRow>, b: seq<FeatureRow>) {
    |a| == |b| && forall i :: 0 <= i < |a| ==> a[i].pregame == b[i].pregame && a[i].features == b[i].features
  }

  /** The features of the game at position `k` do not depend on the outcome of any game at position `k` or later. */
  lemma FeaturesIgnoreLaterPositions(x: Inputs, y: Inputs, games: seq<Game>, other: seq<Game>, k: nat)
    requires SamePast(x, y, games, other, k) && k < |games| && k < |other| && SamePregames(games[k], other[k])
    ensures SameFeatures(GameFeatures(x, games, k), GameFeatures(y, other, k))
  {
    hide FeaturesOf, AllPlayer, AllPlayerSeason, AllOffense, AllDefense, Select;
    SameHistories(x, y, games, other, k);
    var a, b := GameFeatures(x, games, k), GameFeatures(y, other, k);
    forall i | 0 <= i < |a| ensures a[i].pregame == b[i].pregame && a[i].features == b[i].features {
      assert games[k][i].pregame == other[k][i].pregame && games[k][0].pregame == other[k][0].pregame;
    }
  }

  // ---- non-interference by schedule ----------------------------------------

  /** The schedule order of games: kickoff, then identifier. */
  predicate GameLess(a: Pregame, b: Pregame) {
    a.kickoff < b.kickoff || (a.kickoff == b.kickoff && TextLess(a.gameId, b.gameId))
  }

  /** Two tables list the same player-games; rows of games before the cut agree in their outcomes too. */
  ghost predicate SameUpTo(a: seq<Row>, b: seq<Row>, cut: Pregame) {
    |a| == |b| && forall i {:trigger a[i]} {:trigger b[i]} :: 0 <= i < |a| ==> RowAgrees(a[i], b[i], cut)
  }

  predicate RowAgrees(a: Row, b: Row, cut: Pregame) {
    a.pregame == b.pregame && (GameLess(a.pregame, cut) ==> a == b)
  }

  lemma {:induction false} InsertAgrees(p: Row, q: Row, a: seq<Row>, b: seq<Row>, cut: Pregame,
                                        less: (Row, Row) -> bool)
    requires less == ((u: Row, v: Row) => RowLess(u.pregame, v.pregame))
    requires RowAgrees(p, q, cut) && SameUpTo(a, b, cut)
    ensures SameUpTo(Insert(p, a, less), Insert(q, b, less), cut)
  {
    hide RowLess, GameLess;
    if a == [] {
    } else {
      assert RowAgrees(a[0], b[0], cut);
      assert less(p, a[0]) == less(q, b[0]);
      if !less(p, a[0]) {
        InsertAgrees(p, q, a[1..], b[1..], cut, less);
      }
    }
  }

  lemma {:induction false} SortAgrees(a: seq<Row>, b: seq<Row>, cut: Pregame, less: (Row, Row) -> bool)
    requires less == ((u: Row, v: Row) => RowLess(u.pregame, v.pregame)) && SameUpTo(a, b, cut)
    ensures SameUpTo(Sort(a, less), Sort(b, less), cut)
  {
    hide RowAgrees;
    if a != [] {
      var n := |a| - 1;
      SortAgrees(a[..n], b[..n], cut, less);
      InsertAgrees(a[n], b[n], Sort(a[..n], less), Sort(b[..n], less), cut, less);
    }
  }

  lemma {:induction false} GroupsAgree(a: seq<Row>, b: seq<Row>, gameId: string, cut: Pregame)
    requires SameUpTo(a, b, cut)
    ensures SameUpTo(OfGame(a, gameId), OfGame(b, gameId), cut)
    ensures SameUpTo(NotOfGame(a, gameId), NotOfGame(b, gameId), cut)
  {
    hide GameLess;
    if a != [] {
      var n := |a| - 1;
      GroupsAgree(a[..n], b[..n], gameId, cut);
      assert RowAgrees(a[n], b[n], cut);
    }
  }

  ghost predicate GamesAgree(a: seq<Game>, b: seq<Game>, cut: Pregame) {
    |a| == |b| && forall k {:trigger a[k]} {:trigger b[k]} :: 0 <= k < |a| ==> SameUpTo(a[k], b[k], cut)
  }

  lemma {:induction false} PartitionsAgree(a: seq<Row>, b: seq<Row>, cut: Pregame)
    requires SameUpTo(a, b, cut)
    ensures GamesAgree(Partition(a), Partition(b), cut)
    decreases |a|
  {
    if a != [] {
      var gameId := a[0].pregame.gameId;
      assert RowAgrees(a[0], b[0], cut);
      GroupsAgree(a, b, gameId, cut);
      PartitionsAgree(NotOfGame(a, gameId), NotOfGame(b, gameId), cut);
    }
  }

  predicate OneKickoffPerGame(rows: seq<Row>) {
    forall i, j :: 0 <= i < |rows| && 0 <= j < |rows| && rows[i].pregame.gameId == rows[j].pregame.gameId ==>
      rows[i].pregame.kickoff == rows[j].pregame.kickoff
  }

  lemma {:induction false} GroupRows(rows: seq<Row>, gameId: string)
    ensures forall r :: r in OfGame(rows, gameId) <==> r in rows && r.pregame.gameId == gameId
    ensures forall r :: r in NotOfGame(rows, gameId) <==> r in rows && r.pregame.gameId != gameId
  {
    if rows != [] {
      var n := |rows| - 1;
      GroupRows(rows[..n], gameId);
      assert rows == rows[..n] + [rows[n]];
    }
  }

  lemma {:induction false} RestIsSorted(rows: seq<Row>, gameId: string, less: (Row, Row) -> bool)
    requires Sorted(rows, less)
    ensures Sorted(NotOfGame(rows, gameId), less)
  {
    if rows != [] {
      var n := |rows| - 1;
      RestIsSorted(rows[..n], gameId, less);
      var rest := NotOfGame(rows[..n], gameId);
      forall i | 0 <= i < |rest| ensures !less(rows[n], rest[i]) {
        GroupRows(rows[..n], gameId);
        assert rest[i] in rows[..n];
        var p :| 0 <= p < n && rows[..n][p] == rest[i];
      }
    }
  }

  lemma {:induction false} PartitionRows(rows: seq<Row>, k: nat, r: Row)
    requires k < |Partition(rows)| && r in Partition(rows)[k]
    ensures r in rows
    decreases |rows|
  {
    var gameId := rows[0].pregame.gameId;
    GroupRows(rows, gameId);
    if k > 0 {
      PartitionRows(NotOfGame(rows, gameId), k - 1, r);
    }
  }

  /** What follows the first game in sorted order belongs to later games. */
  lemma FirstGameIsEarliest(rows: seq<Row>, less: (Row, Row) -> bool, a: Row, b: Row)
    requires less == ((u: Row, v: Row) => RowLess(u.pregame, v.pregame))
    requires Sorted(rows, less) && OneKickoffPerGame(rows) && rows != [] && a in rows && b in rows
    requires a.pregame.gameId == rows[0].pregame.gameId != b.pregame.gameId
    ensures GameLess(a.pregame, b.pregame)
  {
    hide TextLess, Sorted, OneKickoffPerGame;
    var p :| 0 <= p < |rows| && rows[p] == a;
    var q :| 0 <= q < |rows| && rows[q] == b;
    assert !less(rows[q], rows[0]) by { SortedFromFirst(rows, less, q); }
    assert a.pregame.kickoff == rows[0].pregame.kickoff by { KickoffOfGame(rows, p, 0); }
    TextIsTotal(rows[0].pregame.gameId, b.pregame.gameId);
  }

  lemma SortedFromFirst(rows: seq<Row>, less: (Row, Row) -> bool, q: nat)
    requires Sorted(rows, less) && 0 < q < |rows|
    ensures !less(rows[q], rows[0])
  {
  }

  lemma KickoffOfGame(rows: seq<Row>, p: nat, q: nat)
    requires OneKickoffPerGame(rows) && p < |rows| && q < |rows| && rows[p].pregame.gameId == rows[q].pregame.gameId
    ensures rows[p].pregame.kickoff == rows[q].pregame.kickoff
  {
  }

  lemma RestHasOneKickoff(rows: seq<Row>, gameId: string)
    requires OneKickoffPerGame(rows)
    ensures OneKickoffPerGame(NotOfGame(rows, gameId))
  {
    hide NotOfGame, OneKickoffPerGame;
    GroupRows(rows, gameId);
    var rest := NotOfGame(rows, gameId);
    forall p: nat, q: nat | p < |rest| && q < |rest| && rest[p].pregame.gameId == rest[q].pregame.gameId
      ensures rest[p].pregame.kickoff == rest[q].pregame.kickoff
    {
      assert rest[p] in rest && rest[q] in rest;
      var i :| 0 <= i < |rows| && rows[i] == rest[p];
      var j :| 0 <= j < |rows| && rows[j] == rest[q];
      KickoffOfGame(rows, i, j);
    }
    KickoffsAgree(rest);
  }

  lemma KickoffsAgree(rows: seq<Row>)
    requires forall p: nat, q: nat :: p < |rows| && q < |rows| && rows[p].pregame.gameId == rows[q].pregame.gameId ==>
               rows[p].pregame.kickoff == rows[q].pregame.kickoff
    ensures OneKickoffPerGame(rows)
  {
  }

  /** Games are processed in schedule order: every row of an earlier position belongs to an earlier game. */
  lemma {:induction false} PositionsFollowSchedule(rows: seq<Row>, less: (Row, Row) -> bool, i: nat, j: nat, a: Row,
                                                   b: Row)
    requires less == ((u: Row, v: Row) => RowLess(u.pregame, v.pregame))
    requires Sorted(rows, less) && OneKickoffPerGame(rows)
    requires i < j < |Partition(rows)| && a in Partition(rows)[i] && b in Partition(rows)[j]
    ensures GameLess(a.pregame, b.pregame)
    decreases |rows|
  {
    hide Sorted, OneKickoffPerGame, RowLess, GameLess, NotOfGame, OfGame;
    var gameId := rows[0].pregame.gameId;
    var rest := NotOfGame(rows, gameId);
    GroupRows(rows, gameId);
    RestIsSorted(rows, gameId, less);
    RestHasOneKickoff(rows, gameId);
    if i == 0 {
      PartitionRows(rest, j - 1, b);
      FirstGameIsEarliest(rows, less, a, b);
    } else {
      PositionsFollowSchedule(rest, less, i - 1, j - 1, a, b);
    }
  }

  lemma RowOrderIsTransitive()
    ensures Transitive((u: Row, v: Row) => RowLess(u.pregame, v.pregame))
    ensures Asymmetric((u: Row, v: Row) => RowLess(u.pregame, v.pregame))
  {
    forall a: Row, b: Row ensures !(RowLess(a.pregame, b.pregame) && RowLess(b.pregame, a.pregame)) {
      TextIsTotal(a.pregame.gameId, b.pregame.gameId);
      TextIsTotal(a.pregame.player, b.pregame.player);
    }
    forall a: Row, b: Row, c: Row | RowLess(a.pregame, b.pregame) && RowLess(b.pregame, c.pregame)
      ensures RowLess(a.pregame, c.pregame)
    {
      RowLessIsTransitive(a.pregame, b.pregame, c.pregame);
    }
  }

  lemma RowLessIsTransitive(a: Pregame, b: Pregame, c: Pregame)
    requires RowLess(a, b) && RowLess(b, c)
    ensures RowLess(a, c)
  {
    hide TextLess;
    if a.kickoff == b.kickoff == c.kickoff {
      TextIsTotal(a.gameId, b.gameId);
      TextIsTotal(b.gameId, c.gameId);
      if TextLess(a.gameId, b.gameId) && TextLess(b.gameId, c.gameId) {
        TextIsTransitive(a.gameId, b.gameId, c.gameId);
      }
      if a.gameId == b.gameId == c.gameId {
        TextIsTransitive(a.player, b.player, c.player);
      }
    }
  }

  /** No two different rows share player and game. */
  predicate UniqueKeys(table: seq<Row>) {
    forall a, b :: a in table && b in table && a != b ==>
      a.pregame.player != b.pregame.player || a.pregame.gameId != b.pregame.gameId
  }

  lemma KeysOrderRows(table: seq<Row>)
    requires UniqueKeys(table)
    ensures Orders(table, (u: Row, v: Row) => RowLess(u.pregame, v.pregame))
  {
    forall a, b | a in table && b in table && a != b
      ensures RowLess(a.pregame, b.pregame) || RowLess(b.pregame, a.pregame) {
      TextIsTotal(a.pregame.gameId, b.pregame.gameId);
      TextIsTotal(a.pregame.player, b.pregame.player);
    }
  }

  /** The table built does not depend on the order in which the rows arrived. */
  lemma OrderOfRowsIsIrrelevant(table: seq<Row>, shuffled: seq<Row>)
    requires UniqueKeys(table) && multiset(table) == multiset(shuffled)
    ensures Games(shuffled) == Games(table)
  {
    hide RowLess;
    KeysOrderRows(table);
    RowOrderIsTransitive();
    SortForgetsOrder(table, shuffled, (u: Row, v: Row) => RowLess(u.pregame, v.pregame));
  }

  lemma {:induction false} SortKeepsKickoffs(table: seq<Row>, less: (Row, Row) -> bool)
    requires OneKickoffPerGame(table)
    ensures OneKickoffPerGame(Sort(table, less))
  {
    SortKeepsItems(table, less);
    var sorted := Sort(table, less);
    forall i, j | 0 <= i < |sorted| && 0 <= j < |sorted| && sorted[i].pregame.gameId == sorted[j].pregame.gameId
      ensures sorted[i].pregame.kickoff == sorted[j].pregame.kickoff
    {
      InTheMultiset(sorted, table, sorted[i]);
      InTheMultiset(sorted, table, sorted[j]);
    }
  }

  /** Point in time, end to end: whatever happens in the game of `cut` or in any game scheduled after it, the features
      of that game, and of every game before it, stay the same. */
  lemma FeaturesIgnoreTheFuture(x: Inputs, y: Inputs, table: seq<Row>, other: seq<Row>, cut: Pregame, k: nat, r: Row)
    requires UniqueKeys(table) && OneKickoffPerGame(table) && SameUpTo(table, other, cut)
    requires forall i :: 0 <= i < |table| && GameLess(table[i].pregame, cut) ==>
               SameInputs(x, y, table[i].pregame.gameId)
    requires k < |Games(table)| && r in Games(table)[k] && !GameLess(cut, r.pregame)
    ensures k < |Games(other)| && NoEmptyGame(Games(table)) && NoEmptyGame(Games(other))
    ensures SameFeatures(GameFeatures(x, Games(table), k), GameFeatures(y, Games(other), k))
  {
    hide RowLess, GameLess, TextLess, SameInputs, GameFeatures, NoEmptyGame, Partition, SameUpTo, Sort;
    var less := (u: Row, v: Row) => RowLess(u.pregame, v.pregame);
    var sorted := Sort(table, less);
    SortAgrees(table, other, cut, less);
    PartitionsAgree(sorted, Sort(other, less), cut);
    PartitionHasNoEmptyGame(sorted);
    PartitionHasNoEmptyGame(Sort(other, less));
    KeysOrderRows(table);
    RowOrderIsTransitive();
    SortSorts(table, less);
    SortKeepsKickoffs(table, less);
    var a, b := Games(table), Games(other);
    forall j | 0 <= j < k ensures a[j] == b[j] && a[j] != [] && SameInputs(x, y, GameIdOf(a[j])) {
      EarlierGameIsSettled(x, y, table, sorted, less, a, b, cut, j, k, r);
    }
    SameTables(x, y, a, b, k, cut);
    FeaturesIgnoreLaterPositions(x, y, a, b, k);
  }

  lemma SameTables(x: Inputs, y: Inputs, a: seq<Game>, b: seq<Game>, k: nat, cut: Pregame)
    requires NoEmptyGame(a) && NoEmptyGame(b) && GamesAgree(a, b, cut) && k < |a|
    requires forall j :: 0 <= j < k ==> a[j] == b[j] && a[j] != [] && SameInputs(x, y, GameIdOf(a[j]))
    ensures SamePast(x, y, a, b, k) && SamePregames(a[k], b[k])
  {
    hide SameInputs;
    assert SameUpTo(a[k], b[k], cut);
  }

  lemma EarlierGameIsSettled(x: Inputs, y: Inputs, table: seq<Row>, sorted: seq<Row>, less: (Row, Row) -> bool,
                             a: seq<Game>, b: seq<Game>, cut: Pregame, j: nat, k: nat, r: Row)
    requires less == ((u: Row, v: Row) => RowLess(u.pregame, v.pregame))
    requires Sorted(sorted, less) && OneKickoffPerGame(sorted) && multiset(sorted) == multiset(table)
    requires a == Partition(sorted) && NoEmptyGame(a) && GamesAgree(a, b, cut)
    requires j < k < |a| && r in a[k] && !GameLess(cut, r.pregame)
    requires forall i :: 0 <= i < |table| && GameLess(table[i].pregame, cut) ==>
               SameInputs(x, y, table[i].pregame.gameId)
    ensures a[j] == b[j] && a[j] != [] && SameInputs(x, y, GameIdOf(a[j]))
  {
    hide SameInputs, RowLess, TextLess, Partition, Sorted, OneKickoffPerGame;
    forall i | 0 <= i < |a[j]| ensures a[j][i] == b[j][i] && GameLess(a[j][i].pregame, cut) {
      PositionsFollowSchedule(sorted, less, j, k, a[j][i], r);
      GameOrderIsConnected(a[j][i].pregame, r.pregame, cut);
      assert SameUpTo(a[j], b[j], cut);
      assert RowAgrees(a[j][i], b[j][i], cut);
    }
    assert SameUpTo(a[j], b[j], cut);
    PartitionRows(sorted, j, a[j][0]);
    InTheMultiset(sorted, table, a[j][0]);
    var i :| 0 <= i < |table| && table[i] == a[j][0];
  }

  lemma GameOrderIsConnected(a: Pregame, r: Pregame, cut: Pregame)
    requires GameLess(a, r) && !GameLess(cut, r)
    ensures GameLess(a, cut)
  {
    hide TextLess;
    TextIsTotal(cut.gameId, r.gameId);
    if TextLess(a.gameId, r.gameId) && TextLess(r.gameId, cut.gameId) {
      TextIsTransitive(a.gameId, r.gameId, cut.gameId);
    }
  }

  // ---- conservation --------------------------------------------------------

  function Flatten(games: seq<Game>): seq<Row> {
    if games == [] then [] else games[0] + Flatten(games[1..])
  }

  lemma {:induction false} GroupsCoverRows(rows: seq<Row>, gameId: string)
    ensures multiset(OfGame(rows, gameId)) + multiset(NotOfGame(rows, gameId)) == multiset(rows)
  {
    if rows != [] {
      var n := |rows| - 1;
      GroupsCoverRows(rows[..n], gameId);
      var group, rest := OfGame(rows[..n], gameId), NotOfGame(rows[..n], gameId);
      CoverOneMore(rows[..n], rows[n], group, rest);
      assert rows == rows[..n] + [rows[n]];
      assert OfGame(rows, gameId) == if rows[n].pregame.gameId == gameId then group + [rows[n]] else group;
      assert NotOfGame(rows, gameId) == if rows[n].pregame.gameId == gameId then rest else rest + [rows[n]];
    }
  }

  lemma CoverOneMore(rows: seq<Row>, row: Row, group: seq<Row>, rest: seq<Row>)
    requires multiset(group) + multiset(rest) == multiset(rows)
    ensures multiset(group + [row]) + multiset(rest) == multiset(rows + [row])
    ensures multiset(group) + multiset(rest + [row]) == multiset(rows + [row])
  {
  }

  /** Grouping neither loses nor repeats a row. */
  lemma {:induction false} PartitionConserves(rows: seq<Row>)
    ensures multiset(Flatten(Partition(rows))) == multiset(rows)
    decreases |rows|
  {
    if rows != [] {
      var gameId := rows[0].pregame.gameId;
      GroupsCoverRows(rows, gameId);
      PartitionConserves(NotOfGame(rows, gameId));
      assert Partition(rows)[1..] == Partition(NotOfGame(rows, gameId));
    }
  }

  function EmittedTarget(row: FeatureRow): (Pregame, real) {
    (row.pregame, row.actualReceptions)
  }

  function SuppliedTarget(row: Row): (Pregame, real) {
    (row.pregame, row.outcome.actualReceptions)
  }

  function Emitted(rows: seq<FeatureRow>): seq<(Pregame, real)> {
    Mapped(rows, EmittedTarget)
  }

  function Supplied(rows: seq<Row>): seq<(Pregame, real)> {
    Mapped(rows, SuppliedTarget)
  }

  lemma {:induction false} FlattenSplits(games: seq<Game>, k: nat)
    requires 0 < k <= |games|
    ensures Flatten(games[..k]) == Flatten(games[..k - 1]) + games[k - 1]
  {
    if k == 1 {
      assert games[..1] == [games[0]] && games[..1][1..] == [];
    } else {
      FlattenSplits(games[1..], k - 1);
      assert games[..k][1..] == games[1..][..k - 1];
      assert games[..k - 1][1..] == games[1..][..k - 2];
    }
  }

  lemma GameIsEmitted(x: Inputs, games: seq<Game>, k: nat)
    requires NoEmptyGame(games) && k < |games|
    ensures Emitted(GameFeatures(x, games, k)) == Supplied(games[k])
  {
    hide FeaturesOf, KnowledgeBefore;
    forall i | 0 <= i < |games[k]| ensures EmittedTarget(GameFeatures(x, games, k)[i]) == SuppliedTarget(games[k][i]) {
    }
  }

  lemma {:induction false} GamesAreEmitted(x: Inputs, games: seq<Game>, k: nat)
    requires NoEmptyGame(games) && k <= |games|
    ensures Emitted(TableBefore(x, games, k)) == Supplied(Flatten(games[..k]))
  {
    hide FeaturesOf, KnowledgeBefore, EmittedTarget, SuppliedTarget;
    if k > 0 {
      GamesAreEmitted(x, games, k - 1);
      FlattenSplits(games, k);
      var earlier, rows := TableBefore(x, games, k - 1), GameFeatures(x, games, k - 1);
      assert Emitted(earlier + rows) == Emitted(earlier) + Emitted(rows);
      GameIsEmitted(x, games, k - 1);
      assert Supplied(Flatten(games[..k - 1]) + games[k - 1])
               == Supplied(Flatten(games[..k - 1])) + Supplied(games[k - 1]);
    }
  }

  /** The output holds exactly the rows of the table, each once and with its own target. */
  lemma TableEmitsEveryRow(x: Inputs, table: seq<Row>)
    ensures NoEmptyGame(Games(table))
    ensures var output := Sort(TableBefore(x, Games(table), |Games(table)|),
                               (a: FeatureRow, b: FeatureRow) => RowLess(a.pregame, b.pregame));
            multiset(Emitted(output)) == multiset(Supplied(table))
  {
    hide Partition, RowLess, Sort, TableBefore, Flatten, NoEmptyGame, Emitted, Supplied;
    var rowLess := (a: Row, b: Row) => RowLess(a.pregame, b.pregame);
    var featureLess := (a: FeatureRow, b: FeatureRow) => RowLess(a.pregame, b.pregame);
    var sorted, games := Sort(table, rowLess), Games(table);
    PartitionHasNoEmptyGame(sorted);
    var rows := TableBefore(x, games, |games|);
    SortKeepsItems(rows, featureLess);
    SameEmission(Sort(rows, featureLess), rows);
    GamesAreEmitted(x, games, |games|);
    assert games[..|games|] == games;
    PartitionConserves(sorted);
    SortKeepsItems(table, rowLess);
    SameSupply(Flatten(games), table);
  }

  lemma SameEmission(a: seq<FeatureRow>, b: seq<FeatureRow>)
    requires multiset(a) == multiset(b)
    ensures multiset(Emitted(a)) == multiset(Emitted(b))
  {
    MappedAlike(a, b, EmittedTarget);
  }

  lemma SameSupply(a: seq<Row>, b: seq<Row>)
    requires multiset(a) == multiset(b)
    ensures multiset(Supplied(a)) == multiset(Supplied(b))
  {
    MappedAlike(a, b, SuppliedTarget);
  }
}
