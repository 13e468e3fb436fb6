/** What every baseline predicts, as sums over the rows of the earlier games. */
module BaselineMeaning {
  import opened Foundations
  import opened Numerics
  import opened Histories
  import opened Baselines
  import opened BaselineTheorems

  // ---- sums over the earlier rows ------------------------------------------

  /** The row counts towards one player's career, or towards the league when no player is named. */
  predicate Counts(row: Row, player: Option<string>) {
    player.None? || row.player == player.value
  }

  function GameTotal(game: Game, player: Option<string>): real {
    if |game| == 0 then 0.0
    else (if Counts(game[0], player) then game[0].actual else 0.0) + GameTotal(game[1..], player)
  }

  function GameCount(game: Game, player: Option<string>): nat {
    if |game| == 0 then 0 else (if Counts(game[0], player) then 1 else 0) + GameCount(game[1..], player)
  }

  function TotalBefore(games: seq<Game>, k: nat, player: Option<string>): real
    requires k <= |games|
  {
    if k == 0 then 0.0 else TotalBefore(games, k - 1, player) + GameTotal(games[k - 1], player)
  }

  function CountBefore(games: seq<Game>, k: nat, player: Option<string>): nat
    requires k <= |games|
  {
    if k == 0 then 0 else CountBefore(games, k - 1, player) + GameCount(games[k - 1], player)
  }

  lemma {:induction false} SumSplits(a: seq<real>, b: seq<real>)
    ensures Sum(a + b) == Sum(a) + Sum(b)
  {
    if b == [] {
      assert a + b == a;
    } else {
      var n := |b| - 1;
      SumSplits(a, b[..n]);
      assert (a + b)[..|a| + n] == a + b[..n];
    }
  }

  lemma SumOfOne(x: real)
    ensures Sum([x]) == x
  {
    assert [x][..0] == [] && Total([x], Identity) == Total([x][..0], Identity) + Identity(x);
  }

  lemma FirstActual(game: Game)
    requires game != []
    ensures Actuals(game) == [(game[0].player, game[0].actual)] + Actuals(game[1..])
  {
  }

  lemma {:induction false} GameSums(game: Game, player: string)
    ensures Sum(Values(Actuals(game))) == GameTotal(game, None) && |Actuals(game)| == GameCount(game, None)
    ensures Sum(Select(Actuals(game), player)) == GameTotal(game, Some(player))
    ensures |Select(Actuals(game), player)| == GameCount(game, Some(player))
  {
    if game != [] {
      hide Sum;
      GameSums(game[1..], player);
      var first, rest := (game[0].player, game[0].actual), Actuals(game[1..]);
      FirstActual(game);
      hide Actuals;
      SelectDistributes([first], rest, player);
      assert [first][..0] == [];
      assert Select([first], player) == if game[0].player == player then [game[0].actual] else [];
      ValuesDistribute([first], rest);
      assert Values([first]) == [game[0].actual];
      SumSplits(Values([first]), Values(rest));
      SumSplits(Select([first], player), Select(rest, player));
      SumOfOne(game[0].actual);
      SumOfNone();
    } else {
      SumOfNone();
      assert Actuals(game) == [] && Values(Actuals(game)) == [];
    }
  }

  lemma SumOfNone()
    ensures Sum([]) == 0.0
  {
  }

  /** The histories add up to the sums over the earlier rows. */
  lemma {:induction false} HistorySums(games: seq<Game>, k: nat, player: string)
    requires k <= |games|
    ensures var before := ActualsBefore(games, k);
            && Sum(Values(before)) == TotalBefore(games, k, None) && |Values(before)| == CountBefore(games, k, None)
            && Sum(Select(before, player)) == TotalBefore(games, k, Some(player))
            && |Select(before, player)| == CountBefore(games, k, Some(player))
  {
    SumOfNone();
    if k > 0 {
      hide Sum, Actuals, Select, GameTotal, GameCount;
      HistorySums(games, k - 1, player);
      GameSums(games[k - 1], player);
      var before, more := ActualsBefore(games, k - 1), Actuals(games[k - 1]);
      SelectDistributes(before, more, player);
      ValuesDistribute(before, more);
      SumSplits(Values(before), Values(more));
      SumSplits(Select(before, player), Select(more, player));
    }
  }

  // ---- the predictions -----------------------------------------------------

  /** The value is the mean of `count` outcomes that add up to `total`. */
  predicate IsMean(value: Option<real>, total: real, count: nat) {
    if count == 0 then value.None? else value.Some? && value.value * count as real == total
  }

  lemma MeanIsMean(values: seq<real>)
    ensures IsMean(Mean(values), Sum(values), |values|)
  {
    if values != [] {
      Quotient(Sum(values), |values| as real);
    }
  }

  lemma Quotient(total: real, n: real)
    requires n != 0.0
    ensures total / n * n == total
  {
  }

  /** What a baseline may answer: its own statistic of the row, or a mean of earlier outcomes, and nothing without
      history of the kind it asks for. */
  predicate AnswerFits(name: BaselineName, answer: Option<real>, row: Row, career: nat, careerTotal: real, league: nat,
                       leagueTotal: real)
  {
    match name
    case LeagueMean => IsMean(answer, leagueTotal, league)
    case CareerAverage => IsMean(answer, careerTotal, career)
    case PreviousGame => answer == if career == 0 then None else row.lag1
    case Rolling3 => answer == if career == 0 then None else row.roll3
    case Rolling5 => answer == if career == 0 then None else row.roll5
    case SeasonToDate => answer == if career == 0 then None else row.seasonMean
    case Poisson =>
      if row.seasonMean.Some? then answer == row.seasonMean
      else if row.roll5.Some? then answer == row.roll5
      else if career > 0 then IsMean(answer, careerTotal, career)
      else IsMean(answer, leagueTotal, league)
  }

  /** The largest of the counts a baseline draws on. */
  predicate CountFits(name: BaselineName, count: nat, row: Row, career: nat, league: nat) {
    match name
    case LeagueMean => count == league
    case Poisson =>
      && career <= count && league <= count && (row.seasonMean.Some? || row.roll5.Some? ==> 1 <= count)
      && (count == career || count == league || (count == 1 && (row.seasonMean.Some? || row.roll5.Some?)))
    case _ => count == career
  }

  /** The prediction at one place of the output: the row it is for, the baseline, and what the earlier games give. */
  predicate PredictionFits(p: Prediction, name: BaselineName, games: seq<Game>, k: nat, row: Row)
    requires k <= |games|
  {
    var career, league := CountBefore(games, k, Some(row.player)), CountBefore(games, k, None);
    && p.player == row.player && p.gameId == row.gameId && p.season == row.season && p.kickoff == row.kickoff
    && p.actual == row.actual && p.baseline == name && (p.eligible <==> p.prediction.Some?)
    && AnswerFits(name, p.prediction, row, career, TotalBefore(games, k, Some(row.player)), league,
                  TotalBefore(games, k, None))
    && CountFits(name, p.historyCount, row, career, league)
  }

  lemma {:induction false} LeagueHasCareers(games: seq<Game>, k: nat, player: Option<string>)
    requires k <= |games|
    ensures CountBefore(games, k, player) <= CountBefore(games, k, None)
  {
    if k > 0 {
      LeagueHasCareers(games, k - 1, player);
      GameHasPlayers(games[k - 1], player);
    }
  }

  lemma {:induction false} GameHasPlayers(game: Game, player: Option<string>)
    ensures GameCount(game, player) <= GameCount(game, None)
  {
    if |game| > 0 {
      GameHasPlayers(game[1..], player);
    }
  }

  lemma PredictMeaning(name: BaselineName, games: seq<Game>, k: nat, row: Row)
    requires k <= |games|
    ensures var before := ActualsBefore(games, k);
            PredictionFits(Predict(row, name, Select(before, row.player), Values(before)), name, games, k, row)
  {
    hide Mean, FirstKnown, IsMean, ActualsBefore, Select, Values, Sum, TotalBefore, CountBefore;
    var before := ActualsBefore(games, k);
    var career, league := Select(before, row.player), Values(before);
    HistorySums(games, k, row.player);
    LeagueHasCareers(games, k, Some(row.player));
    MeanIsMean(career);
    MeanIsMean(league);
    FallBack(row, Mean(career), Mean(league));
    MeanKnown(career);
    MeanKnown(league);
    NothingIsMean(Mean(career), Sum(career));
    NothingIsMean(Mean(league), Sum(league));
  }

  lemma MeanKnown(values: seq<real>)
    ensures Mean(values).Some? <==> |values| > 0
  {
  }

  lemma NothingIsMean(value: Option<real>, total: real)
    ensures IsMean(value, total, 0) <==> value.None?
  {
  }

  /** Every prediction of a table, at the place the order of games, rows and names gives it. */
  lemma PredictionsMeaning(names: seq<BaselineName>, games: seq<Game>, k: nat, i: nat, q: nat)
    requires k < |games| && i < |games[k]| && q < |names|
    ensures |AllPredictions(names, games, |games|)| == CountBefore(games, |games|, None) * |names|
    ensures (CountBefore(games, k, None) + i) * |names| + q < |AllPredictions(names, games, |games|)|
    ensures PredictionFits(AllPredictions(names, games, |games|)[(CountBefore(games, k, None) + i) * |names| + q],
                           names[q], games, k, games[k][i])
  {
    hide Predict, PredictionFits, ActualsBefore, Select, Values, CountBefore;
    AllAreSized(names, games, |games|);
    var t := PredictionAt(names, games, k, |games[k]|, i, q);
    GameIsSized(names, games, k, i);
    PlaceInTable(names, games, k, |games|, t);
    PredictMeaning(names[q], games, k, games[k][i]);
    Distribute(CountBefore(games, k, None), i, |names|);
  }

  lemma {:induction false} GameIsSized(names: seq<BaselineName>, games: seq<Game>, k: nat, n: nat)
    requires k < |games| && n <= |games[k]|
    ensures |GamePredictions(names, games, k, n)| == n * |names|
  {
    hide Predict, ActualsBefore, Select, Values;
    if n > 0 {
      GameIsSized(names, games, k, n - 1);
      Distribute(n - 1, 1, |names|);
    }
  }

  lemma {:induction false} EveryRowCounts(game: Game)
    ensures GameCount(game, None) == |game|
  {
    if |game| > 0 {
      EveryRowCounts(game[1..]);
    }
  }

  lemma {:induction false} AllAreSized(names: seq<BaselineName>, games: seq<Game>, k: nat)
    requires k <= |games|
    ensures |AllPredictions(names, games, k)| == CountBefore(games, k, None) * |names|
  {
    hide GamePredictions;
    if k > 0 {
      AllAreSized(names, games, k - 1);
      GameIsSized(names, games, k - 1, |games[k - 1]|);
      EveryRowCounts(games[k - 1]);
      Distribute(CountBefore(games, k - 1, None), |games[k - 1]|, |names|);
    }
  }

  lemma Distribute(a: nat, b: nat, n: nat)
    ensures (a + b) * n == a * n + b * n
  {
  }

  lemma {:induction false} PlaceInTable(names: seq<BaselineName>, games: seq<Game>, k: nat, n: nat, t: nat)
    requires k < n <= |games| && t < |GamePredictions(names, games, k, |games[k]|)|
    ensures CountBefore(games, k, None) * |names| + t < |AllPredictions(names, games, n)|
    ensures AllPredictions(names, games, n)[CountBefore(games, k, None) * |names| + t]
              == GamePredictions(names, games, k, |games[k]|)[t]
  {
    hide GamePredictions, CountBefore;
    AllAreSized(names, games, n - 1);
    if k < n - 1 {
      PlaceInTable(names, games, k, n - 1, t);
    }
  }
}
