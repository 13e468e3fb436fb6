/** `build_wr_baseline_predictions`: deterministic predictions from the league's and each player's earlier games. */
module Baselines {
  import opened Foundations
  import opened Numerics
  import opened Histories

  datatype BaselineName = LeagueMean | PreviousGame | Rolling3 | Rolling5 | SeasonToDate | CareerAverage | Poisson

  /** Every registered specification asks for this much history. */
  const MINIMUM_HISTORY: nat := 1

  /** One row of the feature table, as far as the baselines read it. */
  datatype Row = Row(
    player: string, gameId: string, season: int, kickoff: int,
    lag1: Option<real>, roll3: Option<real>, roll5: Option<real>, seasonMean: Option<real>, actual: real)

  type Game = seq<Row>

  datatype Prediction = Prediction(
    player: string, gameId: string, season: int, kickoff: int, actual: real, baseline: BaselineName,
    prediction: Option<real>, historyCount: nat, eligible: bool)

  datatype BaselineError = NoBaselines | DuplicateBaselines

  function Mean(values: seq<real>): Option<real> {
    if values == [] then None else Some(Sum(values) / |values| as real)
  }

  function PredictionRow(row: Row, name: BaselineName, prediction: Option<real>, historyCount: nat): Prediction {
    var eligible := prediction.Some? && historyCount >= MINIMUM_HISTORY;
    Prediction(row.player, row.gameId, row.season, row.kickoff, row.actual, name,
               if eligible then prediction else None, historyCount, eligible)
  }

  function FirstKnown(values: seq<Option<real>>): Option<real> {
    if values == [] then None else if values[0].Some? then values[0] else FirstKnown(values[1..])
  }

  function Most(a: nat, b: nat): nat {
    if b > a then b else a
  }

  function Predict(row: Row, name: BaselineName, career: seq<real>, league: seq<real>): Prediction {
    match name
    case LeagueMean => PredictionRow(row, name, Mean(league), |league|)
    case CareerAverage => PredictionRow(row, name, Mean(career), |career|)
    case Poisson =>
      PredictionRow(row, name, FirstKnown([row.seasonMean, row.roll5, Mean(career), Mean(league)]),
                    Most(Most(|career|, if row.seasonMean.Some? then 1 else 0),
                           Most(if row.roll5.Some? then 1 else 0, |league|)))
    case PreviousGame => PredictionRow(row, name, row.lag1, |career|)
    case Rolling3 => PredictionRow(row, name, row.roll3, |career|)
    case Rolling5 => PredictionRow(row, name, row.roll5, |career|)
    case SeasonToDate => PredictionRow(row, name, row.seasonMean, |career|)
  }

  // ---- the definition by brute force ---------------------------------------

  function Actuals(game: Game): seq<(string, real)> {
    seq(|game|, i requires 0 <= i < |game| => (game[i].player, game[i].actual))
  }

  /** Every outcome of the games before position `k`, with its player, in processing order. */
  function ActualsBefore(games: seq<Game>, k: nat): seq<(string, real)>
    requires k <= |games|
  {
    if k == 0 then [] else ActualsBefore(games, k - 1) + Actuals(games[k - 1])
  }

  function Values(updates: seq<(string, real)>): seq<real> {
    seq(|updates|, i requires 0 <= i < |updates| => updates[i].1)
  }

  function RowPredictions(names: seq<BaselineName>, row: Row, career: seq<real>, league: seq<real>): seq<Prediction> {
    seq(|names|, i requires 0 <= i < |names| => Predict(row, names[i], career, league))
  }

  function GamePredictions(names: seq<BaselineName>, games: seq<Game>, k: nat, n: nat): seq<Prediction>
    requires k < |games| && n <= |games[k]|
  {
    if n == 0 then []
    else
      var row, before := games[k][n - 1], ActualsBefore(games, k);
      GamePredictions(names, games, k, n - 1) + RowPredictions(names, row, Select(before, row.player), Values(before))
  }

  function AllPredictions(names: seq<BaselineName>, games: seq<Game>, k: nat): seq<Prediction>
    requires k <= |games|
  {
    if k == 0 then [] else AllPredictions(names, games, k - 1) + GamePredictions(names, games, k - 1, |games[k - 1]|)
  }

  // ---- the loop ------------------------------------------------------------

  predicate Unique(names: seq<BaselineName>) {
    forall i, j :: 0 <= i < j < |names| ==> names[i] != names[j]
  }

  /** The predictions of one row, baseline by baseline. */
  method PredictRow(names: seq<BaselineName>, row: Row, career: seq<real>, leagueMean: Option<real>, leagueCount: nat,
                    ghost league: seq<real>)
    returns (output: seq<Prediction>)
    requires leagueMean == Mean(league) && leagueCount == |league|
    ensures output == RowPredictions(names, row, career, league)
  {
    hide Mean, FirstKnown;
    var careerMean := Mean(career);
    var rate := FirstKnown([row.seasonMean, row.roll5, careerMean, leagueMean]);
    output := [];
    for i := 0 to |names|
      invariant |output| == i
      invariant forall j :: 0 <= j < i ==> output[j] == Predict(row, names[j], career, league)
    {
      var prediction, count;
      match names[i] {
        case LeagueMean => prediction, count := leagueMean, leagueCount;
        case CareerAverage => prediction, count := careerMean, |career|;
        case Poisson =>
          prediction := rate;
          count := Most(Most(|career|, if row.seasonMean.Some? then 1 else 0),
                          Most(if row.roll5.Some? then 1 else 0, leagueCount));
        case PreviousGame => prediction, count := row.lag1, |career|;
        case Rolling3 => prediction, count := row.roll3, |career|;
        case Rolling5 => prediction, count := row.roll5, |career|;
        case SeasonToDate => prediction, count := row.seasonMean, |career|;
      }
      output := output + [PredictionRow(row, names[i], prediction, count)];
    }
  }

  /** Every row of a game is predicted before any outcome of that game enters a history. */
  method BuildPredictions(games: seq<Game>, names: seq<BaselineName>)
    returns (result: Result<seq<Prediction>, BaselineError>)
    ensures names == [] ==> result == Err(NoBaselines)
    ensures names != [] && !Unique(names) ==> result == Err(DuplicateBaselines)
    ensures names != [] && Unique(names) ==> result == Ok(AllPredictions(names, games, |games|))
  {
    hide Predict, RowPredictions, Lookup, Select, Mean, Records;
    if names == [] {
      return Err(NoBaselines);
    }
    if !Unique(names) {
      return Err(DuplicateBaselines);
    }
    var players: map<string, seq<real>> := map[];
    var league: seq<real> := [];
    var output: seq<Prediction> := [];
    NothingRecorded(players);
    for k := 0 to |games|
      invariant Records(players, ActualsBefore(games, k))
      invariant league == Values(ActualsBefore(games, k))
      invariant output == AllPredictions(names, games, k)
    {
      var game := games[k];
      var pending: seq<(string, real)> := [];
      var leagueMean, leagueCount := Mean(league), |league|;
      for i := 0 to |game|
        invariant pending == Actuals(game)[..i]
        invariant output == AllPredictions(names, games, k) + GamePredictions(names, games, k, i)
      {
        var row := game[i];
        CareerIsSelected(players, ActualsBefore(games, k), row.player);
        var predictions := PredictRow(names, row, Lookup(players, row.player), leagueMean, leagueCount, league);
        output := output + predictions;
        pending := pending + [(row.player, row.actual)];
      }
      assert Actuals(game)[..|game|] == Actuals(game);
      players := AppendAll(players, ActualsBefore(games, k), pending);
      ValuesDistribute(ActualsBefore(games, k), pending);
      for i := 0 to |pending|
        invariant league == Values(ActualsBefore(games, k)) + Values(pending)[..i]
      {
        league := league + [pending[i].1];
      }
    }
    return Ok(output);
  }

  lemma NothingRecorded(players: map<string, seq<real>>)
    requires players == map[]
    ensures Records(players, [])
  {
  }

  lemma CareerIsSelected(players: map<string, seq<real>>, before: seq<(string, real)>, player: string)
    requires Records(players, before)
    ensures Lookup(players, player) == Select(before, player)
  {
  }

  lemma ValuesDistribute(a: seq<(string, real)>, b: seq<(string, real)>)
    ensures Values(a + b) == Values(a) + Values(b)
  {
  }
}
