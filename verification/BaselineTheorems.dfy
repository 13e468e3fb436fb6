/** What the baselines may depend on, and where simultaneous kickoffs let later knowledge in. */
module BaselineTheorems {
  import opened Foundations
  import opened Numerics
  import opened Histories
  import opened Baselines

  /** Two rows that differ at most in the outcome. */
  predicate SamePregame(a: Row, b: Row) {
    a.(actual := b.actual) == b
  }

  ghost predicate SameBoard(a: Game, b: Game) {
    |a| == |b| && forall i :: 0 <= i < |a| ==> SamePregame(a[i], b[i])
  }

  /** What a prediction says, the recorded outcome aside. */
  predicate SamePrediction(a: Prediction, b: Prediction) {
    a.(actual := b.actual) == b
  }

  ghost predicate SamePredictions(a: seq<Prediction>, b: seq<Prediction>) {
    |a| == |b| && forall i :: 0 <= i < |a| ==> SamePrediction(a[i], b[i])
  }

  lemma {:induction false} SameActuals(games: seq<Game>, other: seq<Game>, k: nat)
    requires k <= |games| && k <= |other| && games[..k] == other[..k]
    ensures ActualsBefore(games, k) == ActualsBefore(other, k)
  {
    hide Actuals;
    if k > 0 {
      assert games[..k][..k - 1] == games[..k - 1] && other[..k][..k - 1] == other[..k - 1];
      assert games[..k][k - 1] == games[k - 1] && other[..k][k - 1] == other[k - 1];
      SameActuals(games, other, k - 1);
    }
  }

  /** The predictions for the game at position `k` do not depend on any outcome at position `k` or later. */
  lemma {:induction false} PredictionsIgnoreLaterPositions(names: seq<BaselineName>, games: seq<Game>, other: seq<Game>,
                                                           k: nat, n: nat)
    requires k < |games| && k < |other| && games[..k] == other[..k] && SameBoard(games[k], other[k]) && n <= |games[k]|
    ensures SamePredictions(GamePredictions(names, games, k, n), GamePredictions(names, other, k, n))
  {
    if n > 0 {
      PredictionsIgnoreLaterPositions(names, games, other, k, n - 1);
      SameActuals(games, other, k);
      LastRowAgrees(names, games, other, k, n);
    }
  }

  lemma LastRowAgrees(names: seq<BaselineName>, games: seq<Game>, other: seq<Game>, k: nat, n: nat)
    requires k < |games| && k < |other| && SameBoard(games[k], other[k]) && 0 < n <= |games[k]|
    requires ActualsBefore(games, k) == ActualsBefore(other, k)
    requires SamePredictions(GamePredictions(names, games, k, n - 1), GamePredictions(names, other, k, n - 1))
    ensures SamePredictions(GamePredictions(names, games, k, n), GamePredictions(names, other, k, n))
  {
    hide ActualsBefore, Select, RowPredictions, SamePrediction, Values;
    var row, same, before := games[k][n - 1], other[k][n - 1], ActualsBefore(games, k);
    assert SamePregame(row, same);
    RowPredictionsAgree(names, row, same, Select(before, row.player), Values(before));
  }

  lemma RowPredictionsAgree(names: seq<BaselineName>, row: Row, same: Row, career: seq<real>, league: seq<real>)
    requires SamePregame(row, same)
    ensures SamePredictions(RowPredictions(names, row, career, league), RowPredictions(names, same, career, league))
  {
    hide Mean, FirstKnown;
  }

  // ---- eligibility ---------------------------------------------------------

  ghost predicate EarlierRow(games: seq<Game>, k: nat)
    requires k <= |games|
  {
    exists j :: 0 <= j < k && games[j] != []
  }

  ghost predicate EarlierRowOf(games: seq<Game>, k: nat, player: string)
    requires k <= |games|
  {
    exists j, i :: 0 <= j < k && 0 <= i < |games[j]| && games[j][i].player == player
  }

  lemma {:induction false} LeagueHistoryIsEarlierRows(games: seq<Game>, k: nat)
    requires k <= |games|
    ensures ActualsBefore(games, k) != [] <==> EarlierRow(games, k)
  {
    if k > 0 {
      LeagueHistoryIsEarlierRows(games, k - 1);
      assert |Actuals(games[k - 1])| == |games[k - 1]|;
      if ActualsBefore(games, k - 1) != [] {
        var j :| 0 <= j < k - 1 && games[j] != [];
      }
    }
  }

  lemma {:induction false} CareerIsEarlierRows(games: seq<Game>, k: nat, player: string)
    requires k <= |games|
    ensures Select(ActualsBefore(games, k), player) != [] <==> EarlierRowOf(games, k, player)
  {
    if k > 0 {
      var game := games[k - 1];
      CareerIsEarlierRows(games, k - 1, player);
      SelectDistributes(ActualsBefore(games, k - 1), Actuals(game), player);
      hide Select, ActualsBefore;
      if EarlierRowOf(games, k - 1, player) {
        var j, i :| 0 <= j < k - 1 && 0 <= i < |games[j]| && games[j][i].player == player;
      }
      if p: nat :| p < |game| && game[p].player == player {
        PlayerIsSelected(Actuals(game), p, player);
      } else {
        AbsentPlayer(game, player);
      }
    }
  }

  /** The Poisson baseline is the last resort of all: it is eligible exactly when any rate is known. */
  lemma PoissonFallsBack(row: Row, career: seq<real>, league: seq<real>)
    ensures var p := Predict(row, Poisson, career, league);
            && (p.eligible <==> row.seasonMean.Some? || row.roll5.Some? || career != [] || league != [])
            && (p.eligible ==> p.prediction == (if row.seasonMean.Some? then row.seasonMean
                                                else if row.roll5.Some? then row.roll5
                                                else if career != [] then Mean(career) else Mean(league)))
  {
    hide FirstKnown;
    FallBack(row, Mean(career), Mean(league));
  }

  /** Which baselines are eligible for a row of game `k`, in terms of the earlier games and the row's own features. */
  lemma BaselinesAreEligible(games: seq<Game>, k: nat, row: Row)
    requires k <= |games|
    ensures var before := ActualsBefore(games, k);
            var career, league := Select(before, row.player), Values(before);
            && (Predict(row, LeagueMean, career, league).eligible <==> EarlierRow(games, k))
            && (Predict(row, CareerAverage, career, league).eligible <==> EarlierRowOf(games, k, row.player))
            && (Predict(row, PreviousGame, career, league).eligible <==>
                  row.lag1.Some? && EarlierRowOf(games, k, row.player))
            && (Predict(row, Rolling3, career, league).eligible <==>
                  row.roll3.Some? && EarlierRowOf(games, k, row.player))
            && (Predict(row, Rolling5, career, league).eligible <==>
                  row.roll5.Some? && EarlierRowOf(games, k, row.player))
            && (Predict(row, SeasonToDate, career, league).eligible <==>
                  row.seasonMean.Some? && EarlierRowOf(games, k, row.player))
            && (Predict(row, Poisson, career, league).eligible <==>
                  row.seasonMean.Some? || row.roll5.Some? || EarlierRow(games, k))
  {
    var before := ActualsBefore(games, k);
    LeagueHistoryIsEarlierRows(games, k);
    CareerIsEarlierRows(games, k, row.player);
    PoissonFallsBack(row, Select(before, row.player), Values(before));
    SelectOfNothing(before, row.player);
    hide FirstKnown, ActualsBefore, Select, EarlierRow, EarlierRowOf;
    assert |Values(before)| == |before|;
  }

  lemma SelectOfNothing(updates: seq<(string, real)>, player: string)
    ensures Select(updates, player) != [] ==> updates != []
  {
  }

  // ---- simultaneous games --------------------------------------------------

  ghost predicate OneKickoff(game: Game) {
    forall i, j :: 0 <= i < |game| && 0 <= j < |game| ==> game[i].kickoff == game[j].kickoff
  }

  /** Non-empty games, each with one kickoff, processed in order of kickoff. */
  ghost predicate Scheduled(games: seq<Game>) {
    && (forall k :: 0 <= k < |games| ==> games[k] != [] && OneKickoff(games[k]))
    && (forall i, j :: 0 <= i < j < |games| ==> games[i][0].kickoff <= games[j][0].kickoff)
  }

  /** The same games; outcomes of games that kicked off before `time` are the same too. */
  ghost predicate SameUntil(games: seq<Game>, other: seq<Game>, time: int) {
    && |games| == |other|
    && forall k :: 0 <= k < |games| ==>
         SameBoard(games[k], other[k]) && (games[k] != [] && games[k][0].kickoff < time ==> games[k] == other[k])
  }

  /** No change of outcomes at or after the kickoff of game `k` can change its predictions. */
  ghost predicate FreeOfHindsight(names: seq<BaselineName>, games: seq<Game>, k: nat)
    requires k < |games| && games[k] != []
  {
    forall other {:trigger SameUntil(games, other, games[k][0].kickoff)} ::
      SameUntil(games, other, games[k][0].kickoff) ==>
      SamePredictions(GamePredictions(names, games, k, |games[k]|), GamePredictions(names, other, k, |games[k]|))
  }

  /** Some earlier position kicks off at the same time. */
  ghost predicate EarlierSimultaneousGame(games: seq<Game>, k: nat)
    requires k < |games| && games[k] != []
  {
    exists j :: 0 <= j < k && games[j] != [] && games[j][0].kickoff == games[k][0].kickoff
  }

  /** The player has a row at an earlier position that kicks off at the same time. */
  ghost predicate EarlierSimultaneousRow(games: seq<Game>, k: nat, player: string)
    requires k < |games| && games[k] != []
  {
    exists j, m :: 0 <= j < k && 0 <= m < |games[j]| && games[j][0].kickoff == games[k][0].kickoff
      && games[j][m].player == player
  }

  /** Where one baseline's prediction for one row of game `k` rests on a result that is not known at kickoff. */
  ghost predicate Leaks(name: BaselineName, games: seq<Game>, k: nat, row: Row)
    requires k < |games| && games[k] != []
  {
    match name
    case LeagueMean => EarlierSimultaneousGame(games, k)
    case CareerAverage => EarlierSimultaneousRow(games, k, row.player)
    case Poisson =>
      && row.seasonMean.None? && row.roll5.None?
      && (if Select(ActualsBefore(games, k), row.player) == [] then EarlierSimultaneousGame(games, k)
          else EarlierSimultaneousRow(games, k, row.player))
    case _ => false
  }

  // ---- without a leak nothing changes --------------------------------------

  ghost predicate SamePlayers(a: seq<(string, real)>, b: seq<(string, real)>) {
    |a| == |b| && forall i :: 0 <= i < |a| ==> a[i].0 == b[i].0
  }

  lemma {:induction false} SameBoardsSamePlayers(games: seq<Game>, other: seq<Game>, time: int, k: nat)
    requires SameUntil(games, other, time) && k <= |games|
    ensures SamePlayers(ActualsBefore(games, k), ActualsBefore(other, k))
  {
    if k > 0 {
      SameBoardsSamePlayers(games, other, time, k - 1);
      var game, twin := games[k - 1], other[k - 1];
      assert SameBoard(game, twin);
      forall i | 0 <= i < |game| ensures game[i].player == twin[i].player {
        assert SamePregame(game[i], twin[i]);
      }
    }
  }

  lemma {:induction false} SamePlayersSelectAlike(a: seq<(string, real)>, b: seq<(string, real)>, player: string)
    requires SamePlayers(a, b)
    ensures |Select(a, player)| == |Select(b, player)|
  {
    if a != [] {
      SamePlayersSelectAlike(a[..|a| - 1], b[..|b| - 1], player);
    }
  }

  lemma {:induction false} AbsentPlayer(game: Game, player: string)
    requires forall i :: 0 <= i < |game| ==> game[i].player != player
    ensures Select(Actuals(game), player) == []
  {
    NothingSelected(Actuals(game), player);
  }

  lemma {:induction false} NothingSelected(updates: seq<(string, real)>, player: string)
    requires forall i :: 0 <= i < |updates| ==> updates[i].0 != player
    ensures Select(updates, player) == []
  {
    if updates != [] {
      NothingSelected(updates[..|updates| - 1], player);
    }
  }

  /** A career without rows at the same kickoff is settled. */
  lemma {:induction false} CareerIsSettled(games: seq<Game>, other: seq<Game>, k: nat, n: nat, player: string)
    requires Scheduled(games) && k < |games| && n <= k && SameUntil(games, other, games[k][0].kickoff)
    requires !EarlierSimultaneousRow(games, k, player)
    ensures Select(ActualsBefore(games, n), player) == Select(ActualsBefore(other, n), player)
  {
    if n > 0 {
      var j := n - 1;
      GameIsSettled(games, other, k, j, player);
      hide Select, Actuals, Scheduled, SameUntil, EarlierSimultaneousRow;
      CareerIsSettled(games, other, k, j, player);
      SelectDistributes(ActualsBefore(games, j), Actuals(games[j]), player);
      SelectDistributes(ActualsBefore(other, j), Actuals(other[j]), player);
    }
  }

  lemma GameIsSettled(games: seq<Game>, other: seq<Game>, k: nat, j: nat, player: string)
    requires Scheduled(games) && j < k < |games| && SameUntil(games, other, games[k][0].kickoff)
    requires !EarlierSimultaneousRow(games, k, player)
    ensures j < |other| && Select(Actuals(games[j]), player) == Select(Actuals(other[j]), player)
  {
    hide Select, Actuals;
    assert games[j][0].kickoff <= games[k][0].kickoff;
    if games[j][0].kickoff == games[k][0].kickoff {
      assert SameBoard(games[j], other[j]);
      forall m | 0 <= m < |games[j]| ensures games[j][m].player != player && other[j][m].player != player {
        assert SamePregame(games[j][m], other[j][m]);
      }
      AbsentPlayer(games[j], player);
      AbsentPlayer(other[j], player);
    } else {
      assert games[j] == other[j];
    }
  }

  lemma LeagueIsSettled(games: seq<Game>, other: seq<Game>, k: nat)
    requires Scheduled(games) && k < |games| && SameUntil(games, other, games[k][0].kickoff)
    requires !EarlierSimultaneousGame(games, k)
    ensures ActualsBefore(games, k) == ActualsBefore(other, k)
  {
    forall j | 0 <= j < k ensures games[j] == other[j] {
      assert games[j][0].kickoff <= games[k][0].kickoff && games[j] != [];
    }
    assert games[..k] == other[..k];
    SameActuals(games, other, k);
  }

  lemma SettledPrediction(name: BaselineName, games: seq<Game>, other: seq<Game>, k: nat, row: Row, same: Row)
    requires Scheduled(games) && k < |games| && SameUntil(games, other, games[k][0].kickoff)
    requires SamePregame(row, same) && !Leaks(name, games, k, row)
    ensures var before, after := ActualsBefore(games, k), ActualsBefore(other, k);
            SamePrediction(Predict(row, name, Select(before, row.player), Values(before)),
                           Predict(same, name, Select(after, same.player), Values(after)))
  {
    hide Select, EarlierSimultaneousGame, EarlierSimultaneousRow, Values, ActualsBefore, Predict, SamePrediction;
    var before, after := ActualsBefore(games, k), ActualsBefore(other, k);
    SameBoardsSamePlayers(games, other, games[k][0].kickoff, k);
    hide Scheduled, SameUntil;
    SamePlayersSelectAlike(before, after, row.player);
    ValuesAreSized(before, after);
    if !EarlierSimultaneousGame(games, k) {
      LeagueIsSettled(games, other, k);
    }
    if !EarlierSimultaneousRow(games, k, row.player) {
      CareerIsSettled(games, other, k, k, row.player);
    }
    PredictAgrees(name, row, same, Select(before, row.player), Select(after, row.player), Values(before),
                  Values(after));
  }

  lemma ValuesAreSized(a: seq<(string, real)>, b: seq<(string, real)>)
    requires |a| == |b|
    ensures |Values(a)| == |Values(b)|
  {
  }

  /** A prediction depends on the histories only through the sizes and the means it uses. */
  lemma PredictAgrees(name: BaselineName, row: Row, same: Row, career: seq<real>, career': seq<real>, league: seq<real>,
                      league': seq<real>)
    requires SamePregame(row, same) && |career| == |career'| && |league| == |league'|
    requires name.LeagueMean? ==> league == league'
    requires name.CareerAverage? ==> career == career'
    requires name.Poisson? && row.seasonMean.None? && row.roll5.None? ==>
               if career == [] then league == league' else career == career'
    ensures SamePrediction(Predict(row, name, career, league), Predict(same, name, career', league'))
  {
    hide Mean, FirstKnown;
    MeansAreKnown(career);
    MeansAreKnown(career');
    MeansAreKnown(league);
    MeansAreKnown(league');
    FallBack(row, Mean(career), Mean(league));
    FallBack(same, Mean(career'), Mean(league'));
  }

  /** The chain of rates behind the Poisson baseline. */
  lemma FallBack(row: Row, career: Option<real>, league: Option<real>)
    ensures FirstKnown([row.seasonMean, row.roll5, career, league])
              == if row.seasonMean.Some? then row.seasonMean else if row.roll5.Some? then row.roll5
                 else if career.Some? then career else league
  {
    var values := [row.seasonMean, row.roll5, career, league];
    assert values[1..] == [row.roll5, career, league];
    assert values[1..][1..] == [career, league];
    assert values[1..][1..][1..] == [league];
    assert FirstKnown([league]) == league;
    assert FirstKnown(values[1..][1..]) == if career.Some? then career else league;
    assert FirstKnown(values[1..]) == if row.roll5.Some? then row.roll5 else FirstKnown(values[1..][1..]);
  }

  ghost predicate NothingLeaks(names: seq<BaselineName>, games: seq<Game>, k: nat)
    requires k < |games| && games[k] != []
  {
    forall i, q :: 0 <= i < |games[k]| && 0 <= q < |names| ==> !Leaks(names[q], games, k, games[k][i])
  }

  lemma {:induction false} SettledPredictions(names: seq<BaselineName>, games: seq<Game>, other: seq<Game>, k: nat,
                                              n: nat)
    requires Scheduled(games) && k < |games| && n <= |games[k]| && SameUntil(games, other, games[k][0].kickoff)
    requires NothingLeaks(names, games, k)
    ensures |other[k]| == |games[k]|
    ensures SamePredictions(GamePredictions(names, games, k, n), GamePredictions(names, other, k, n))
  {
    assert SameBoard(games[k], other[k]);
    if n > 0 {
      assert SamePregame(games[k][n - 1], other[k][n - 1]);
      hide ActualsBefore, Select, RowPredictions, Values, Scheduled, SamePredictions, NothingLeaks, SameUntil;
      SettledPredictions(names, games, other, k, n - 1);
      SettledRow(names, games, other, k, n - 1);
      SamePredictionsConcatenate(
        GamePredictions(names, games, k, n - 1), GamePredictions(names, other, k, n - 1),
        RowPredictionsAt(names, games, k, n - 1), RowPredictionsAt(names, other, k, n - 1));
    }
  }

  function RowPredictionsAt(names: seq<BaselineName>, games: seq<Game>, k: nat, i: nat): seq<Prediction>
    requires k < |games| && i < |games[k]|
  {
    var row, before := games[k][i], ActualsBefore(games, k);
    RowPredictions(names, row, Select(before, row.player), Values(before))
  }

  lemma SettledRow(names: seq<BaselineName>, games: seq<Game>, other: seq<Game>, k: nat, i: nat)
    requires Scheduled(games) && k < |games| && i < |games[k]| && SameUntil(games, other, games[k][0].kickoff)
    requires k < |other| && i < |other[k]| && SamePregame(games[k][i], other[k][i]) && NothingLeaks(names, games, k)
    ensures SamePredictions(RowPredictionsAt(names, games, k, i), RowPredictionsAt(names, other, k, i))
  {
    hide ActualsBefore, Select, Predict, Values, Scheduled, Leaks, SamePrediction, SameUntil;
    forall q | 0 <= q < |names|
      ensures SamePrediction(RowPredictionsAt(names, games, k, i)[q], RowPredictionsAt(names, other, k, i)[q])
    {
      SettledPrediction(names[q], games, other, k, games[k][i], other[k][i]);
    }
  }

  lemma SamePredictionsConcatenate(a: seq<Prediction>, b: seq<Prediction>, c: seq<Prediction>, d: seq<Prediction>)
    requires SamePredictions(a, b) && SamePredictions(c, d)
    ensures SamePredictions(a + c, b + d)
  {
    hide SamePrediction;
  }

  // ---- with a leak one more reception changes a prediction -----------------

  /** One more reception in row `m` of game `j`. */
  function Raised(games: seq<Game>, j: nat, m: nat): seq<Game>
    requires j < |games| && m < |games[j]|
  {
    games[j := games[j][m := games[j][m].(actual := games[j][m].actual + 1.0)]]
  }

  function Bumped(updates: seq<(string, real)>, p: nat): seq<(string, real)>
    requires p < |updates|
  {
    updates[p := (updates[p].0, updates[p].1 + 1.0)]
  }

  lemma {:induction false} RaisedActuals(games: seq<Game>, j: nat, m: nat, k: nat) returns (p: nat)
    requires j < k <= |games| && m < |games[j]|
    ensures p < |ActualsBefore(games, k)| && ActualsBefore(games, k)[p].0 == games[j][m].player
    ensures ActualsBefore(Raised(games, j, m), k) == Bumped(ActualsBefore(games, k), p)
  {
    hide Actuals;
    if k == j + 1 {
      p := |ActualsBefore(games, j)| + m;
      RaisedHere(games, j, m);
    } else {
      p := RaisedActuals(games, j, m, k - 1);
      assert Raised(games, j, m)[k - 1] == games[k - 1];
      BumpedConcatenation(ActualsBefore(games, k - 1), Actuals(games[k - 1]), p);
    }
  }

  lemma RaisedHere(games: seq<Game>, j: nat, m: nat)
    requires j < |games| && m < |games[j]|
    ensures var p := |ActualsBefore(games, j)| + m;
            && p < |ActualsBefore(games, j + 1)| && ActualsBefore(games, j + 1)[p].0 == games[j][m].player
            && ActualsBefore(Raised(games, j, m), j + 1) == Bumped(ActualsBefore(games, j + 1), p)
  {
    var raised := Raised(games, j, m);
    assert games[..j] == raised[..j];
    SameActuals(games, raised, j);
    assert Actuals(raised[j]) == Bumped(Actuals(games[j]), m);
  }

  lemma BumpedConcatenation(a: seq<(string, real)>, b: seq<(string, real)>, p: nat)
    requires p < |a|
    ensures Bumped(a + b, p) == Bumped(a, p) + b && (a + b)[p] == a[p]
  {
  }

  lemma {:induction false} BumpedSums(updates: seq<(string, real)>, p: nat, player: string)
    requires p < |updates|
    ensures |Values(Bumped(updates, p))| == |Values(updates)|
    ensures Sum(Values(Bumped(updates, p))) == Sum(Values(updates)) + 1.0
    ensures |Select(Bumped(updates, p), player)| == |Select(updates, player)|
    ensures Sum(Select(Bumped(updates, p), player))
              == Sum(Select(updates, player)) + if updates[p].0 == player then 1.0 else 0.0
  {
    var n, bumped := |updates| - 1, Bumped(updates, p);
    SumOfLast(updates);
    SumOfLast(bumped);
    SelectedSumOfLast(updates, player);
    SelectedSumOfLast(bumped, player);
    if p == n {
      assert bumped[..n] == updates[..n];
    } else {
      BumpedSums(updates[..n], p, player);
      assert bumped[..n] == Bumped(updates[..n], p);
    }
  }

  lemma SumOfLast(updates: seq<(string, real)>)
    requires updates != []
    ensures var n := |updates| - 1; Sum(Values(updates)) == Sum(Values(updates[..n])) + updates[n].1
  {
    var n := |updates| - 1;
    assert Values(updates)[..n] == Values(updates[..n]);
  }

  lemma SelectedSumOfLast(updates: seq<(string, real)>, player: string)
    requires updates != []
    ensures var n := |updates| - 1;
            && Sum(Select(updates, player))
                 == Sum(Select(updates[..n], player)) + (if updates[n].0 == player then updates[n].1 else 0.0)
            && |Select(updates, player)| == |Select(updates[..n], player)| + (if updates[n].0 == player then 1 else 0)
  {
    var n := |updates| - 1;
    var earlier := Select(updates[..n], player);
    assert (earlier + [updates[n].1])[..|earlier|] == earlier;
    assert earlier + [] == earlier;
  }

  lemma {:induction false} PredictionAt(names: seq<BaselineName>, games: seq<Game>, k: nat, n: nat, i: nat, q: nat)
    returns (t: nat)
    requires k < |games| && i < n <= |games[k]| && q < |names|
    ensures t == |GamePredictions(names, games, k, i)| + q && t < |GamePredictions(names, games, k, n)|
    ensures var row, before := games[k][i], ActualsBefore(games, k);
            GamePredictions(names, games, k, n)[t] == Predict(row, names[q], Select(before, row.player), Values(before))
  {
    hide ActualsBefore, Select, Predict, Values;
    if n == i + 1 {
      t := |GamePredictions(names, games, k, i)| + q;
    } else {
      t := PredictionAt(names, games, k, n - 1, i, q);
    }
  }

  lemma {:induction false} PredictionsAreSized(names: seq<BaselineName>, games: seq<Game>, other: seq<Game>, k: nat,
                                               n: nat)
    requires k < |games| && k < |other| && n <= |games[k]| && n <= |other[k]|
    ensures |GamePredictions(names, games, k, n)| == |GamePredictions(names, other, k, n)|
  {
    if n > 0 {
      PredictionsAreSized(names, games, other, k, n - 1);
    }
  }

  lemma DifferentMeans(a: seq<real>, b: seq<real>)
    requires a != [] && |a| == |b| && Sum(b) == Sum(a) + 1.0
    ensures Mean(a) != Mean(b)
  {
    var n := |a| as real;
    assert Sum(a) / n * n == Sum(a) && (Sum(a) + 1.0) / n * n == Sum(a) + 1.0;
  }

  /** One more reception at a simultaneous position moves a leaking prediction. */
  lemma RaisedPrediction(name: BaselineName, games: seq<Game>, k: nat, row: Row, j: nat, m: nat)
    requires k < |games| && games[k] != [] && j < k && m < |games[j]| && Leaks(name, games, k, row)
    requires name.CareerAverage? || (name.Poisson? && Select(ActualsBefore(games, k), row.player) != []) ==>
               games[j][m].player == row.player
    ensures var before, after := ActualsBefore(games, k), ActualsBefore(Raised(games, j, m), k);
            Predict(row, name, Select(before, row.player), Values(before)).prediction
              != Predict(row, name, Select(after, row.player), Values(after)).prediction
  {
    var before, after := ActualsBefore(games, k), ActualsBefore(Raised(games, j, m), k);
    var p := RaisedActuals(games, j, m, k);
    BumpedSums(before, p, row.player);
    assert |Values(before)| == |before| > 0;
    hide ActualsBefore, Sum, EarlierSimultaneousGame, EarlierSimultaneousRow, Values, FirstKnown, Mean;
    var career, career' := Select(before, row.player), Select(after, row.player);
    MeansAreKnown(Values(before));
    MeansAreKnown(Values(after));
    MeansAreKnown(career);
    MeansAreKnown(career');
    DifferentMeans(Values(before), Values(after));
    if games[j][m].player == row.player {
      PlayerIsSelected(before, p, row.player);
      hide Select;
      DifferentMeans(career, career');
    }
    FallBack(row, Mean(career), Mean(Values(before)));
    FallBack(row, Mean(career'), Mean(Values(after)));
  }

  lemma MeansAreKnown(values: seq<real>)
    ensures Mean(values).Some? <==> values != []
  {
  }

  lemma {:induction false} PlayerIsSelected(updates: seq<(string, real)>, p: nat, player: string)
    requires p < |updates| && updates[p].0 == player
    ensures Select(updates, player) != []
  {
    if p < |updates| - 1 {
      PlayerIsSelected(updates[..|updates| - 1], p, player);
    }
  }

  lemma LeakIsHindsight(names: seq<BaselineName>, games: seq<Game>, k: nat, i: nat, q: nat)
    requires Scheduled(games) && k < |games| && i < |games[k]| && q < |names| && Leaks(names[q], games, k, games[k][i])
    ensures !FreeOfHindsight(names, games, k)
  {
    var j, m := LeakingRow(names[q], games, k, games[k][i]);
    RaisedIsSameUntil(games, j, m, games[k][0].kickoff);
    RaisedPredictions(names, games, k, i, q, j, m);
    hide SameUntil, SamePredictions, GamePredictions, Scheduled, Leaks;
  }

  /** Some prediction for the game differs. */
  lemma RaisedPredictions(names: seq<BaselineName>, games: seq<Game>, k: nat, i: nat, q: nat, j: nat, m: nat)
    requires k < |games| && i < |games[k]| && q < |names| && j < k && m < |games[j]|
    requires Leaks(names[q], games, k, games[k][i])
    requires names[q].CareerAverage?
             || (names[q].Poisson? && Select(ActualsBefore(games, k), games[k][i].player) != []) ==>
               games[j][m].player == games[k][i].player
    ensures var n := |games[k]|;
            !SamePredictions(GamePredictions(names, games, k, n), GamePredictions(names, Raised(games, j, m), k, n))
  {
    hide ActualsBefore, GamePredictions, Select, Predict, Leaks, Values, SamePrediction;
    var other, n := Raised(games, j, m), |games[k]|;
    assert other[k] == games[k];
    RaisedPrediction(names[q], games, k, games[k][i], j, m);
    var t := PredictionAt(names, games, k, n, i, q);
    var t' := PredictionAt(names, other, k, n, i, q);
    PredictionsAreSized(names, games, other, k, i);
    hide Raised;
    DifferentPredictions(GamePredictions(names, games, k, n)[t], GamePredictions(names, other, k, n)[t]);
  }

  lemma DifferentPredictions(a: Prediction, b: Prediction)
    requires a.prediction != b.prediction
    ensures !SamePrediction(a, b)
  {
  }

  /** The simultaneous row whose result matters. */
  lemma LeakingRow(name: BaselineName, games: seq<Game>, k: nat, row: Row) returns (j: nat, m: nat)
    requires Scheduled(games) && k < |games| && Leaks(name, games, k, row)
    ensures j < k && m < |games[j]| && games[j][0].kickoff == games[k][0].kickoff
    ensures name.CareerAverage? || (name.Poisson? && Select(ActualsBefore(games, k), row.player) != []) ==>
              games[j][m].player == row.player
  {
    hide ActualsBefore, Select;
    if name.CareerAverage? || (name.Poisson? && Select(ActualsBefore(games, k), row.player) != []) {
      var a, b :| 0 <= a < k && 0 <= b < |games[a]| && games[a][0].kickoff == games[k][0].kickoff
                  && games[a][b].player == row.player;
      j, m := a, b;
    } else {
      var a :| 0 <= a < k && games[a] != [] && games[a][0].kickoff == games[k][0].kickoff;
      j, m := a, 0;
    }
  }

  lemma RaisedIsSameUntil(games: seq<Game>, j: nat, m: nat, time: int)
    requires j < |games| && m < |games[j]| && games[j][0].kickoff == time
    ensures SameUntil(games, Raised(games, j, m), time)
  {
  }

  /** The exact condition for every list of baselines: predictions for a game are free of what happens at or after its
      kickoff exactly when none of the requested baselines leaks on any of its rows. That is always so for the baselines
      read off the feature table, and for all of them where no earlier position shares the kickoff. */
  lemma HindsightIsSimultaneity(names: seq<BaselineName>, games: seq<Game>, k: nat)
    requires Scheduled(games) && k < |games|
    ensures games[k] != []
    ensures FreeOfHindsight(names, games, k) <==> NothingLeaks(names, games, k)
    ensures (forall q :: 0 <= q < |names| ==> FromFeatureTable(names[q])) || !EarlierSimultaneousGame(games, k) ==>
              FreeOfHindsight(names, games, k)
  {
    hide Leaks, GamePredictions, Scheduled;
    GameIsPlayed(games, k);
    forall i, q | 0 <= i < |games[k]| && 0 <= q < |names|
      ensures FromFeatureTable(names[q]) || !EarlierSimultaneousGame(games, k) ==>
                !Leaks(names[q], games, k, games[k][i])
    {
      SharedKickoffsLeak(names[q], games, k, games[k][i]);
    }
    if NothingLeaks(names, games, k) {
      forall other | SameUntil(games, other, games[k][0].kickoff)
        ensures SamePredictions(GamePredictions(names, games, k, |games[k]|),
                                GamePredictions(names, other, k, |games[k]|))
      {
        SettledPredictions(names, games, other, k, |games[k]|);
      }
    } else {
      var i, q :| 0 <= i < |games[k]| && 0 <= q < |names| && Leaks(names[q], games, k, games[k][i]);
      LeakIsHindsight(names, games, k, i, q);
    }
  }

  lemma GameIsPlayed(games: seq<Game>, k: nat)
    requires Scheduled(games) && k < |games|
    ensures games[k] != []
  {
  }

  predicate FromFeatureTable(name: BaselineName) {
    name.PreviousGame? || name.Rolling3? || name.Rolling5? || name.SeasonToDate?
  }

  /** Only a shared kickoff leaks, and never into what the feature table says. */
  lemma SharedKickoffsLeak(name: BaselineName, games: seq<Game>, k: nat, row: Row)
    requires k < |games| && games[k] != []
    ensures Leaks(name, games, k, row) ==> !FromFeatureTable(name) && EarlierSimultaneousGame(games, k)
  {
    hide ActualsBefore, Select;
    if EarlierSimultaneousRow(games, k, row.player) {
      var j, m :| 0 <= j < k && 0 <= m < |games[j]| && games[j][0].kickoff == games[k][0].kickoff
                  && games[j][m].player == row.player;
      assert games[j] != [];
    }
  }
}
