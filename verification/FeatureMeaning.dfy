/** What each feature of the table is: sums over the player's, the team's and the opponent's earlier games, stated
    without the window functions that compute them. */
module FeatureMeaning {
  import opened Foundations
  import opened Numerics
  import opened Ordering
  import opened FeatureTable
  import opened FeatureTheorems

  // ---- averages ------------------------------------------------------------

  /** How many items a window reaches back over. */
  function Reach(window: nat, n: nat): nat {
    if n < window then n else window
  }

  /** The sum of the known values of the last `m` items, the latest first. */
  function SumOfLast<T>(items: seq<T>, m: nat, column: T -> Option<real>): real
    requires m <= |items|
  {
    if m == 0 then 0.0
    else
      SumOfLast(items, m - 1, column)
        + match column(items[|items| - m])
          case Some(value) => value
          case None => 0.0
  }

  predicate AllKnown<T>(items: seq<T>, m: nat, column: T -> Option<real>)
    requires m <= |items|
  {
    forall i :: |items| - m <= i < |items| ==> column(items[i]).Some?
  }

  /** The mean is known when there are items and the value of each of the last `m` is known; it times their number is
      their sum. */
  predicate Averages<T>(mean: Option<real>, items: seq<T>, m: nat, column: T -> Option<real>)
    requires m <= |items|
  {
    && (mean.Some? <==> items != [] && AllKnown(items, m, column))
    && (mean.Some? ==> mean.value * m as real == SumOfLast(items, m, column))
  }

  /** `values` is the column of the items. */
  predicate IsColumn<T>(values: seq<Option<real>>, items: seq<T>, column: T -> Option<real>) {
    |values| == |items| && forall i :: 0 <= i < |items| ==> values[i] == column(items[i])
  }

  lemma {:induction false} TotalFromFront(values: seq<Option<real>>)
    requires values != []
    ensures Total(values, Known) == Known(values[0]) + Total(values[1..], Known)
  {
    var n := |values| - 1;
    if n > 0 {
      TotalFromFront(values[..n]);
      assert values[1..][..n - 1] == values[..n][1..];
    }
  }

  lemma {:induction false} TotalIsSum<T>(values: seq<Option<real>>, items: seq<T>, m: nat, column: T -> Option<real>)
    requires IsColumn(values, items, column) && m <= |items| && AllKnown(items, m, column)
    ensures Total(values[|values| - m..], Known) == SumOfLast(items, m, column)
  {
    if m > 0 {
      TotalIsSum(values, items, m - 1, column);
      var observed := values[|values| - m..];
      TotalFromFront(observed);
      assert observed[1..] == values[|values| - (m - 1)..];
      assert observed[0] == column(items[|items| - m]) && observed[0].Some?;
    }
  }

  lemma MeanIsKnown<T>(values: seq<Option<real>>, items: seq<T>, window: nat, column: T -> Option<real>)
    requires IsColumn(values, items, column) && window > 0
    ensures MeanOf(values, window).Some? <==> items != [] && AllKnown(items, Reach(window, |items|), column)
  {
    hide MeanOf;
    MeanLooksAtTheWindow(values, window, 0.0, 0.0);
  }

  /** A window mean times the number of values it looks at is their sum. */
  lemma MeanIsAverage<T>(values: seq<Option<real>>, items: seq<T>, window: nat, column: T -> Option<real>)
    requires IsColumn(values, items, column) && window > 0
    ensures Averages(MeanOf(values, window), items, Reach(window, |items|), column)
  {
    hide Total, Known, SumOfLast, AllKnown;
    var m := Reach(window, |items|);
    MeanIsKnown(values, items, window, column);
    if MeanOf(values, window).Some? {
      TotalIsSum(values, items, m, column);
      assert LastOf(values, window) == values[|values| - m..];
      QuotientTimes(Total(values[|values| - m..], Known), m as real);
    }
  }

  lemma QuotientTimes(total: real, n: real)
    requires n != 0.0
    ensures total / n * n == total
  {
  }

  /** Moving the window on by one value adds that value and drops the oldest. */
  lemma {:induction false} WindowSlides<T>(items: seq<T>, next: T, m: nat, column: T -> Option<real>)
    requires 0 < m <= |items| && AllKnown(items, m, column) && column(next).Some?
    ensures SumOfLast(items + [next], m, column)
              == SumOfLast(items, m, column) + column(next).value - column(items[|items| - m]).value
  {
    if m > 1 {
      WindowSlides(items, next, m - 1, column);
      assert (items + [next])[|items| + 1 - m] == items[|items| + 1 - m];
    } else {
      assert (items + [next])[|items|] == next;
      assert SumOfLast(items + [next], 0, column) == 0.0 && SumOfLast(items, 0, column) == 0.0;
    }
  }

  // ---- rates ---------------------------------------------------------------

  /** The sum of one column over the last `m` items in which both columns are known. */
  function SumWhereBoth<T>(items: seq<T>, m: nat, column: T -> Option<real>, other: T -> Option<real>): real
    requires m <= |items|
  {
    if m == 0 then 0.0
    else
      var item := items[|items| - m];
      SumWhereBoth(items, m - 1, column, other)
        + if column(item).Some? && other(item).Some? then column(item).value else 0.0
  }

  /** The rate is known when the denominators of the last `m` items add up to something positive; it times that sum is
      the sum of the numerators. */
  predicate Rates<T>(rate: Option<real>, items: seq<T>, m: nat, over: T -> Option<real>, under: T -> Option<real>)
    requires m <= |items|
  {
    && (rate.Some? <==> SumWhereBoth(items, m, under, over) > 0.0)
    && (rate.Some? ==> rate.value * SumWhereBoth(items, m, under, over) == SumWhereBoth(items, m, over, under))
  }

  lemma {:induction false} PairsFromFront(a: seq<Option<real>>, b: seq<Option<real>>)
    requires |a| == |b| > 0
    ensures KnownPairs(a, b)
              == (if a[0].Some? && b[0].Some? then [(a[0].value, b[0].value)] else []) + KnownPairs(a[1..], b[1..])
  {
    var n := |a| - 1;
    if n > 0 {
      PairsFromFront(a[..n], b[..n]);
      assert a[1..][..n - 1] == a[..n][1..] && b[1..][..n - 1] == b[..n][1..];
    } else {
      assert KnownPairs(a[..0], b[..0]) == [] && KnownPairs(a[1..], b[1..]) == [];
    }
  }

  lemma {:induction false} PairSumsFromFront(first: (real, real), rest: seq<(real, real)>)
    ensures Numerators([first] + rest) == first.0 + Numerators(rest)
    ensures Denominators([first] + rest) == first.1 + Denominators(rest)
  {
    var all, n := [first] + rest, |rest|;
    if n == 0 {
      assert all[..0] == [] && all == [first];
    } else {
      PairSumsFromFront(first, rest[..n - 1]);
      assert all[..n] == [first] + rest[..n - 1];
    }
  }

  lemma ColumnTail<T>(values: seq<Option<real>>, items: seq<T>, m: nat, column: T -> Option<real>)
    requires IsColumn(values, items, column) && 0 < m <= |items|
    ensures |values| == |items| && values[|values| - m..][0] == column(items[|items| - m])
    ensures values[|values| - m..][1..] == values[|values| - (m - 1)..]
  {
  }

  lemma {:induction false} PairsAreSums<T>(a: seq<Option<real>>, b: seq<Option<real>>, items: seq<T>, m: nat,
                                           over: T -> Option<real>, under: T -> Option<real>)
    requires IsColumn(a, items, over) && IsColumn(b, items, under) && m <= |items|
    ensures var pairs := KnownPairs(a[|a| - m..], b[|b| - m..]);
            && Numerators(pairs) == SumWhereBoth(items, m, over, under)
            && Denominators(pairs) == SumWhereBoth(items, m, under, over)
  {
    if m > 0 {
      hide KnownPairs, Numerators, Denominators, IsColumn;
      ColumnTail(a, items, m, over);
      ColumnTail(b, items, m, under);
      PairsAreSums(a, b, items, m - 1, over, under);
      var p, q, item := a[|a| - m..], b[|b| - m..], items[|items| - m];
      PairsFromFront(p, q);
      var rest := KnownPairs(p[1..], q[1..]);
      if over(item).Some? && under(item).Some? {
        PairSumsFromFront((over(item).value, under(item).value), rest);
      } else {
        assert [] + rest == rest;
      }
    } else {
      assert a[|a| - 0..] == [] && b[|b| - 0..] == [];
    }
  }

  lemma RatioIsRate<T>(a: seq<Option<real>>, b: seq<Option<real>>, items: seq<T>, window: nat,
                       over: T -> Option<real>, under: T -> Option<real>)
    requires IsColumn(a, items, over) && IsColumn(b, items, under) && window > 0
    ensures Rates(RatioOf(a, b, window), items, Reach(window, |items|), over, under)
  {
    var m := Reach(window, |items|);
    assert LastOf(a, window) == a[|a| - m..] && LastOf(b, window) == b[|b| - m..];
    PairsAreSums(a, b, items, m, over, under);
    var pairs := KnownPairs(LastOf(a, window), LastOf(b, window));
    if pairs != [] && Denominators(pairs) > 0.0 {
      QuotientTimes(Numerators(pairs), Denominators(pairs));
    }
  }

  // ---- the player's own results --------------------------------------------

  function Caught(r: Row): Option<real> { Some(r.outcome.receptions) }

  function Targeted(r: Row): Option<real> { Some(r.outcome.targets) }

  function Gained(r: Row): Option<real> { Some(r.outcome.yards) }

  function OfLast(rows: seq<Row>, column: Row -> Option<real>): Option<real> {
    if |rows| == 0 then None else column(rows[|rows| - 1])
  }

  predicate WindowSums(w: PlayerWindow, rows: seq<Row>, window: nat) {
    var m := Reach(window, |rows|);
    && Averages(w.receptions, rows, m, Caught) && Averages(w.targets, rows, m, Targeted)
    && Averages(w.yards, rows, m, Gained) && Rates(w.catchRate, rows, m, Caught, Targeted)
  }

  /** The features of a player's own results, of all the player's earlier rows and those of the season. */
  predicate OwnSums(f: Features, p: Pregame, rows: seq<Row>, season: seq<Row>) {
    && f.gamesPlayedBefore == |rows| && f.hasPriorHistory == (if |rows| > 0 then 1 else 0)
    && f.receptionsLag1 == OfLast(rows, Caught) && f.targetsLag1 == OfLast(rows, Targeted)
    && f.yardsLag1 == OfLast(rows, Gained)
    && (f.restDays.Some? <==> |rows| > 0)
    && (f.restDays.Some? ==> f.restDays.value * 86400.0 == (p.kickoff - rows[|rows| - 1].pregame.kickoff) as real)
    && WindowSums(f.roll3, rows, 3) && WindowSums(f.roll5, rows, 5) && WindowSums(f.roll8, rows, 8)
    && Averages(f.receptionsSeasonMean, season, |season|, Caught)
    && Averages(f.targetsSeasonMean, season, |season|, Targeted)
    && Averages(f.yardsSeasonMean, season, |season|, Gained)
    && f.gameWeek == p.week && f.seasonYear == p.season && f.homeIndicator == (if p.isHome then 1 else 0)
  }

  lemma RowColumns(rows: seq<Row>)
    ensures IsColumn(Receptions(rows), rows, Caught) && IsColumn(Targets(rows), rows, Targeted)
    ensures IsColumn(Yards(rows), rows, Gained)
  {
  }

  lemma WindowsAreSums(w: PlayerWindow, rows: seq<Row>, window: nat)
    requires WindowReads(w, rows, window) && window > 0
    ensures WindowSums(w, rows, window)
  {
    hide Averages, Rates, MeanOf, RatioOf, IsColumn;
    RowColumns(rows);
    MeanIsAverage(Receptions(rows), rows, window, Caught);
    MeanIsAverage(Targets(rows), rows, window, Targeted);
    MeanIsAverage(Yards(rows), rows, window, Gained);
    RatioIsRate(Receptions(rows), Targets(rows), rows, window, Caught, Targeted);
  }

  lemma SeasonIsSum(mean: Option<real>, values: seq<Option<real>>, rows: seq<Row>, column: Row -> Option<real>)
    requires mean == WholeMean(values) && IsColumn(values, rows, column)
    ensures Averages(mean, rows, |rows|, column)
  {
    hide MeanOf;
    if |rows| > 0 {
      MeanIsAverage(values, rows, |rows|, column);
    }
  }

  lemma OwnAreSums(f: Features, p: Pregame, rows: seq<Row>, season: seq<Row>)
    requires OwnResultsRead(f, p, rows) && SeasonMeansRead(f, season)
    requires f.gameWeek == p.week && f.seasonYear == p.season && f.homeIndicator == (if p.isHome then 1 else 0)
    requires f.hasPriorHistory in {0, 1}
    ensures OwnSums(f, p, rows, season)
  {
    hide WindowReads, WindowSums, Averages, IsColumn, WholeMean;
    WindowsAreSums(f.roll3, rows, 3);
    WindowsAreSums(f.roll5, rows, 5);
    WindowsAreSums(f.roll8, rows, 8);
    RowColumns(season);
    SeasonIsSum(f.receptionsSeasonMean, Receptions(season), season, Caught);
    SeasonIsSum(f.targetsSeasonMean, Targets(season), season, Targeted);
    SeasonIsSum(f.yardsSeasonMean, Yards(season), season, Gained);
    if |rows| > 0 {
      QuotientTimes((p.kickoff - rows[|rows| - 1].pregame.kickoff) as real, 86400.0);
    }
  }

  // ---- usage, team and opponent --------------------------------------------

  function SnapOf(x: Inputs, r: Row): Option<real> {
    if (r.pregame.player, r.pregame.gameId) in x.snaps then x.snaps[(r.pregame.player, r.pregame.gameId)] else None
  }

  function RouteOf(x: Inputs, r: Row): Option<real> {
    if (r.pregame.player, r.pregame.gameId) in x.routes then x.routes[(r.pregame.player, r.pregame.gameId)] else None
  }

  /** The part of the team's attempts that were targets of this row's player. */
  function ShareOf(x: Inputs, r: Row): Option<real> {
    var key := (r.pregame.season, r.pregame.gameId, r.pregame.team);
    if key !in x.teams || x.teams[key].attempts.None? || x.teams[key].attempts.value <= 0.0 then None
    else Some(r.outcome.targets / x.teams[key].attempts.value)
  }

  /** One column added up over the rows of one team. */
  function TeamTotal(game: Game, team: string, column: Row -> Option<real>): real {
    if |game| == 0 then 0.0
    else
      (if game[0].pregame.team == team && column(game[0]).Some? then column(game[0]).value else 0.0)
        + TeamTotal(game[1..], team, column)
  }

  function Allowed(against: (TeamGame, Game), column: Row -> Option<real>): Option<real> {
    if exists i :: 0 <= i < |against.1| && against.1[i].pregame.team == against.0.team
    then Some(TeamTotal(against.1, against.0.team, column)) else None
  }

  predicate ContextSums(w: ContextWindow, x: Inputs, rows: seq<Row>, own: seq<TeamGame>,
                        against: seq<(TeamGame, Game)>, window: nat) {
    var r, t, o := Reach(window, |rows|), Reach(window, |own|), Reach(window, |against|);
    && Averages(w.snapShare, rows, r, (row: Row) => SnapOf(x, row))
    && Averages(w.routeParticipation, rows, r, (row: Row) => RouteOf(x, row))
    && Averages(w.teamAttempts, own, t, (g: TeamGame) => g.attempts)
    && Averages(w.teamCompletions, own, t, (g: TeamGame) => g.completions)
    && Averages(w.teamCompletionRate, own, t, (g: TeamGame) => g.completionRate)
    && Averages(w.teamConcentration, own, t, (g: TeamGame) => g.targetConcentration)
    && Averages(w.attemptsAllowed, against, o, (g: (TeamGame, Game)) => g.0.attempts)
    && Averages(w.completionsAllowed, against, o, (g: (TeamGame, Game)) => g.0.completions)
    && Averages(w.receptionsAllowed, against, o, (g: (TeamGame, Game)) => Allowed(g, Caught))
    && Averages(w.targetsAllowed, against, o, (g: (TeamGame, Game)) => Allowed(g, Targeted))
  }

  /** The usage, team and opponent features, of the player's earlier rows, the team's earlier games and the earlier
      games against the opponent. */
  predicate ContextFeatureSums(f: Features, x: Inputs, rows: seq<Row>, own: seq<TeamGame>,
                               against: seq<(TeamGame, Game)>) {
    && ContextSums(f.context3, x, rows, own, against, 3) && ContextSums(f.context5, x, rows, own, against, 5)
    && f.snapShareLag1 == OfLast(rows, (row: Row) => SnapOf(x, row))
    && f.routeParticipationLag1 == OfLast(rows, (row: Row) => RouteOf(x, row))
    && f.snapShareMissing == (if f.snapShareLag1.None? then 1 else 0)
    && f.routeParticipationMissing == (if f.routeParticipationLag1.None? then 1 else 0)
    && Averages(f.roll3.targetShare, rows, Reach(3, |rows|), (row: Row) => ShareOf(x, row))
    && Averages(f.roll5.targetShare, rows, Reach(5, |rows|), (row: Row) => ShareOf(x, row))
    && Averages(f.roll8.targetShare, rows, Reach(8, |rows|), (row: Row) => ShareOf(x, row))
  }

  lemma UsageAreColumns(x: Inputs, rows: seq<Row>)
    ensures IsColumn(Snaps(x, rows), rows, (row: Row) => SnapOf(x, row))
    ensures IsColumn(Routes(x, rows), rows, (row: Row) => RouteOf(x, row))
    ensures IsColumn(Shares(x, rows), rows, (row: Row) => ShareOf(x, row))
  {
  }

  lemma {:induction false} RowsOfTeamFromFront(game: Game, team: string)
    requires |game| > 0
    ensures RowsOfTeam(game, team)
              == (if game[0].pregame.team == team then [game[0]] else []) + RowsOfTeam(game[1..], team)
  {
    var n := |game| - 1;
    if n > 0 {
      RowsOfTeamFromFront(game[..n], team);
      assert game[1..][..n - 1] == game[..n][1..];
    } else {
      assert RowsOfTeam(game[..0], team) == [] && RowsOfTeam(game[1..], team) == [];
    }
  }

  lemma {:induction false} SumsFromFront(row: Row, rest: seq<Row>)
    ensures SumReceptions([row] + rest) == row.outcome.receptions + SumReceptions(rest)
    ensures SumTargets([row] + rest) == row.outcome.targets + SumTargets(rest)
  {
    var all, n := [row] + rest, |rest|;
    if n == 0 {
      assert all[..0] == [] && all == [row];
    } else {
      SumsFromFront(row, rest[..n - 1]);
      assert all[..n] == [row] + rest[..n - 1];
    }
  }

  lemma {:induction false} TeamSums(game: Game, team: string)
    ensures SumReceptions(RowsOfTeam(game, team)) == TeamTotal(game, team, Caught)
    ensures SumTargets(RowsOfTeam(game, team)) == TeamTotal(game, team, Targeted)
    ensures RowsOfTeam(game, team) != [] <==> exists i :: 0 <= i < |game| && game[i].pregame.team == team
  {
    if |game| > 0 {
      TeamSums(game[1..], team);
      RowsOfTeamFromFront(game, team);
      var rest := RowsOfTeam(game[1..], team);
      assert [] + rest == rest;
      SumsFromFront(game[0], rest);
      assert forall i :: 1 <= i < |game| ==> game[i] == game[1..][i - 1];
    }
  }

  lemma AgainstAreColumns(against: seq<(TeamGame, Game)>)
    ensures IsColumn(AgainstColumn(against, (t: TeamGame, g: Game) => t.attempts), against,
                     (g: (TeamGame, Game)) => g.0.attempts)
    ensures IsColumn(AgainstColumn(against, (t: TeamGame, g: Game) => t.completions), against,
                     (g: (TeamGame, Game)) => g.0.completions)
    ensures IsColumn(AgainstColumn(against, (t: TeamGame, g: Game) => SumIfAny(RowsOfTeam(g, t.team), SumReceptions)),
                     against, (g: (TeamGame, Game)) => Allowed(g, Caught))
    ensures IsColumn(AgainstColumn(against, (t: TeamGame, g: Game) => SumIfAny(RowsOfTeam(g, t.team), SumTargets)),
                     against, (g: (TeamGame, Game)) => Allowed(g, Targeted))
  {
    hide RowsOfTeam, SumReceptions, SumTargets, TeamTotal;
    forall i | 0 <= i < |against|
      ensures SumIfAny(RowsOfTeam(against[i].1, against[i].0.team), SumReceptions) == Allowed(against[i], Caught)
      ensures SumIfAny(RowsOfTeam(against[i].1, against[i].0.team), SumTargets) == Allowed(against[i], Targeted)
    {
      TeamSums(against[i].1, against[i].0.team);
    }
  }

  lemma TeamAreColumns(own: seq<TeamGame>)
    ensures IsColumn(TeamColumn(own, (t: TeamGame) => t.attempts), own, (g: TeamGame) => g.attempts)
    ensures IsColumn(TeamColumn(own, (t: TeamGame) => t.completions), own, (g: TeamGame) => g.completions)
    ensures IsColumn(TeamColumn(own, (t: TeamGame) => t.completionRate), own, (g: TeamGame) => g.completionRate)
    ensures IsColumn(TeamColumn(own, (t: TeamGame) => t.targetConcentration), own,
                     (g: TeamGame) => g.targetConcentration)
  {
  }

  lemma ContextIsSums(w: ContextWindow, x: Inputs, rows: seq<Row>, own: seq<TeamGame>,
                      against: seq<(TeamGame, Game)>, window: nat)
    requires ContextReads(w, x, rows, own, against, window) && window > 0
    ensures ContextSums(w, x, rows, own, against, window)
  {
    hide Averages, MeanOf, IsColumn, Snaps, Routes, Shares, TeamColumn, AgainstColumn, SnapOf, RouteOf, Allowed,
         SumIfAny;
    UsageAreColumns(x, rows);
    MeanIsAverage(Snaps(x, rows), rows, window, (row: Row) => SnapOf(x, row));
    MeanIsAverage(Routes(x, rows), rows, window, (row: Row) => RouteOf(x, row));
    TeamIsSums(w, own, window);
    AgainstIsSums(w, against, window);
  }

  lemma TeamIsSums(w: ContextWindow, own: seq<TeamGame>, window: nat)
    requires window > 0 && w.teamAttempts == MeanOf(TeamColumn(own, (t: TeamGame) => t.attempts), window)
    requires w.teamCompletions == MeanOf(TeamColumn(own, (t: TeamGame) => t.completions), window)
    requires w.teamCompletionRate == MeanOf(TeamColumn(own, (t: TeamGame) => t.completionRate), window)
    requires w.teamConcentration == MeanOf(TeamColumn(own, (t: TeamGame) => t.targetConcentration), window)
    ensures Averages(w.teamAttempts, own, Reach(window, |own|), (g: TeamGame) => g.attempts)
    ensures Averages(w.teamCompletions, own, Reach(window, |own|), (g: TeamGame) => g.completions)
    ensures Averages(w.teamCompletionRate, own, Reach(window, |own|), (g: TeamGame) => g.completionRate)
    ensures Averages(w.teamConcentration, own, Reach(window, |own|), (g: TeamGame) => g.targetConcentration)
  {
    hide Averages, MeanOf, IsColumn, TeamColumn;
    TeamAreColumns(own);
    MeanIsAverage(TeamColumn(own, (t: TeamGame) => t.attempts), own, window, (g: TeamGame) => g.attempts);
    MeanIsAverage(TeamColumn(own, (t: TeamGame) => t.completions), own, window, (g: TeamGame) => g.completions);
    MeanIsAverage(TeamColumn(own, (t: TeamGame) => t.completionRate), own, window, (g: TeamGame) => g.completionRate);
    MeanIsAverage(TeamColumn(own, (t: TeamGame) => t.targetConcentration), own, window,
                  (g: TeamGame) => g.targetConcentration);
  }

  lemma AgainstIsSums(w: ContextWindow, against: seq<(TeamGame, Game)>, window: nat)
    requires window > 0
    requires w.attemptsAllowed == MeanOf(AgainstColumn(against, (t: TeamGame, g: Game) => t.attempts), window)
    requires w.completionsAllowed == MeanOf(AgainstColumn(against, (t: TeamGame, g: Game) => t.completions), window)
    requires w.receptionsAllowed
               == MeanOf(AgainstColumn(against, (t: TeamGame, g: Game) =>
                                         SumIfAny(RowsOfTeam(g, t.team), SumReceptions)), window)
    requires w.targetsAllowed
               == MeanOf(AgainstColumn(against, (t: TeamGame, g: Game) => SumIfAny(RowsOfTeam(g, t.team), SumTargets)),
                         window)
    ensures var o := Reach(window, |against|);
            && Averages(w.attemptsAllowed, against, o, (g: (TeamGame, Game)) => g.0.attempts)
            && Averages(w.completionsAllowed, against, o, (g: (TeamGame, Game)) => g.0.completions)
            && Averages(w.receptionsAllowed, against, o, (g: (TeamGame, Game)) => Allowed(g, Caught))
            && Averages(w.targetsAllowed, against, o, (g: (TeamGame, Game)) => Allowed(g, Targeted))
  {
    hide Averages, MeanOf, IsColumn, AgainstColumn, Allowed, SumIfAny;
    AgainstAreColumns(against);
    MeanIsAverage(AgainstColumn(against, (t: TeamGame, g: Game) => t.attempts), against, window,
                  (g: (TeamGame, Game)) => g.0.attempts);
    MeanIsAverage(AgainstColumn(against, (t: TeamGame, g: Game) => t.completions), against, window,
                  (g: (TeamGame, Game)) => g.0.completions);
    MeanIsAverage(AgainstColumn(against, (t: TeamGame, g: Game) => SumIfAny(RowsOfTeam(g, t.team), SumReceptions)),
                  against, window, (g: (TeamGame, Game)) => Allowed(g, Caught));
    MeanIsAverage(AgainstColumn(against, (t: TeamGame, g: Game) => SumIfAny(RowsOfTeam(g, t.team), SumTargets)),
                  against, window, (g: (TeamGame, Game)) => Allowed(g, Targeted));
  }

  lemma ContextFeaturesAreSums(f: Features, x: Inputs, rows: seq<Row>, own: seq<TeamGame>,
                               against: seq<(TeamGame, Game)>)
    requires ContextFeaturesRead(f, x, rows, own, against)
    requires f.snapShareMissing in {0, 1} && f.routeParticipationMissing in {0, 1}
    ensures ContextFeatureSums(f, x, rows, own, against)
  {
    hide ContextReads, ContextSums, Averages, MeanOf;
    ContextIsSums(f.context3, x, rows, own, against, 3);
    ContextIsSums(f.context5, x, rows, own, against, 5);
    UsageAreColumns(x, rows);
    MeanIsAverage(Shares(x, rows), rows, 3, (row: Row) => ShareOf(x, row));
    MeanIsAverage(Shares(x, rows), rows, 5, (row: Row) => ShareOf(x, row));
    MeanIsAverage(Shares(x, rows), rows, 8, (row: Row) => ShareOf(x, row));
  }

  // ---- the table -----------------------------------------------------------

  lemma ScheduleFeatures(x: Inputs, games: seq<Game>, k: nat, i: nat)
    requires NoEmptyGame(games) && Grouped(games) && k < |games| && i < |games[k]|
    ensures var p, f := games[k][i].pregame, GameFeatures(x, games, k)[i].features;
            && f.gameWeek == p.week && f.seasonYear == p.season && f.homeIndicator == (if p.isHome then 1 else 0)
            && f.hasPriorHistory in {0, 1} && f.snapShareMissing in {0, 1} && f.routeParticipationMissing in {0, 1}
            && GameFeatures(x, games, k)[i].pregame == p
            && GameFeatures(x, games, k)[i].actualReceptions == games[k][i].outcome.actualReceptions
  {
    hide PlayerWindowOf, ContextWindowOf, KnowledgeBefore, SeasonMean, LastValue, Pluck, RestDays;
    assert games[k][i].pregame.season == games[k][0].pregame.season;
  }

  /** Every feature of every row of the table, as sums over the player's earlier rows, the team's earlier games and the
      earlier games against the opponent, the latter two of the same season. */
  lemma FeaturesAreSums(x: Inputs, teamRows: seq<TeamRow>, table: seq<Row>, k: nat, i: nat)
    requires x.teams == TeamContext(teamRows) && OneSeasonPerGame(table) && k < |Games(table)| && i < |Games(table)[k]|
    ensures NoEmptyGame(Games(table))
    ensures var games := Games(table); var p, row := games[k][i].pregame, GameFeatures(x, games, k)[i];
            var rows := EarlierRows(games, k, p.player);
            && row.pregame == p && row.actualReceptions == games[k][i].outcome.actualReceptions
            && OwnSums(row.features, p, rows, InSeason(rows, p.season))
            && ContextFeatureSums(row.features, x, rows, TeamGamesBefore(x, games, k, p.season, p.team),
                                  GamesAgainstBefore(x, games, k, p.season, p.opponent))
  {
    hide OwnResultsRead, SeasonMeansRead, ContextFeaturesRead, OwnSums, ContextFeatureSums, FeatureRowOf, EarlierRows,
         InSeason, Games, NoEmptyGame, TeamGamesBefore, GamesAgainstBefore, OneSeasonPerGame, Grouped;
    GamesAreGrouped(table);
    var games: seq<Game> := Games(table);
    var p, f := games[k][i].pregame, GameFeatures(x, games, k)[i].features;
    var rows := EarlierRows(games, k, p.player);
    ScheduleFeatures(x, games, k, i);
    FeaturesReadEarlierRows(x, table, k, i);
    OwnAreSums(f, p, rows, InSeason(rows, p.season));
    ContextFeaturesReadEarlierGames(x, teamRows, table, k, i);
    ContextFeaturesAreSums(f, x, rows, TeamGamesBefore(x, games, k, p.season, p.team),
                           GamesAgainstBefore(x, games, k, p.season, p.opponent));
  }

  // ---- which rows, teams and team games ------------------------------------

  lemma {:induction false} RowsForMembers(game: Game, player: string, r: Row)
    ensures r in RowsFor(game, player) <==> r in game && r.pregame.player == player
  {
    if game != [] {
      var n := |game| - 1;
      RowsForMembers(game[..n], player, r);
      assert game == game[..n] + [game[n]];
    }
  }

  lemma {:induction false} EarlierRowsMembers(games: seq<Game>, k: nat, player: string, r: Row)
    requires k <= |games|
    ensures r in EarlierRows(games, k, player) <==>
              r.pregame.player == player && exists j :: 0 <= j < k && r in games[j]
  {
    if k > 0 {
      EarlierRowsMembers(games, k - 1, player, r);
      RowsForMembers(games[k - 1], player, r);
    }
  }

  lemma {:induction false} FlattenMembers(games: seq<Game>, r: Row)
    ensures r in Flatten(games) <==> exists j :: 0 <= j < |games| && r in games[j]
  {
    if games != [] {
      FlattenMembers(games[1..], r);
      assert forall j :: 1 <= j < |games| ==> games[j] == games[1..][j - 1];
      if r in Flatten(games[1..]) {
        var j :| 0 <= j < |games[1..]| && r in games[1..][j];
        assert r in games[j + 1];
      }
    }
  }

  /** The earlier rows of a player are exactly the player's rows in the games scheduled before. */
  lemma EarlierRowsAreScheduled(table: seq<Row>, k: nat, row: Row, player: string, r: Row)
    requires OneKickoffPerGame(table) && UniqueKeys(table) && k < |Games(table)| && row in Games(table)[k]
    ensures r in EarlierRows(Games(table), k, player) <==>
              r in table && r.pregame.player == player && GameLess(r.pregame, row.pregame)
  {
    hide RowLess, Sort, Partition, Sorted, OneKickoffPerGame, EarlierRows, Flatten, UniqueKeys, GameLess;
    var less := (a: Row, b: Row) => RowLess(a.pregame, b.pregame);
    var sorted, games: seq<Game> := Sort(table, less), Games(table);
    KeysOrderRows(table);
    RowOrderIsTransitive();
    SortSorts(table, less);
    SortKeepsKickoffs(table, less);
    EarlierRowsMembers(games, k, player, r);
    InTheMultiset(sorted, table, r);
    if j :| 0 <= j < k && r in games[j] {
      PositionsFollowSchedule(sorted, less, j, k, r, row);
      PartitionRows(sorted, j, r);
    }
    if r in table && GameLess(r.pregame, row.pregame) {
      PartitionConserves(sorted);
      InTheMultiset(Flatten(games), sorted, r);
      FlattenMembers(games, r);
      var j :| 0 <= j < |games| && r in games[j];
      if j > k {
        PositionsFollowSchedule(sorted, less, k, j, row, r);
        ScheduleIsStrict(r.pregame, row.pregame);
      } else if j == k {
        SameGameSameTime(sorted, k, r, row);
        ScheduleIsStrict(r.pregame, row.pregame);
      }
    }
  }

  lemma ScheduleIsStrict(a: Pregame, b: Pregame)
    requires GameLess(a, b)
    ensures !GameLess(b, a) && (a.kickoff != b.kickoff || a.gameId != b.gameId)
  {
    TextIsTotal(a.gameId, b.gameId);
  }

  lemma SameGameSameTime(sorted: seq<Row>, k: nat, a: Row, b: Row)
    requires OneKickoffPerGame(sorted) && k < |Partition(sorted)| && a in Partition(sorted)[k]
    requires b in Partition(sorted)[k]
    ensures a.pregame.gameId == b.pregame.gameId && a.pregame.kickoff == b.pregame.kickoff
  {
    hide Partition, OneKickoffPerGame;
    var i :| 0 <= i < |Partition(sorted)[k]| && Partition(sorted)[k][i] == a;
    var j :| 0 <= j < |Partition(sorted)[k]| && Partition(sorted)[k][j] == b;
    PartitionGroupsGames(sorted, k, i);
    PartitionGroupsGames(sorted, k, j);
    PartitionRows(sorted, k, a);
    PartitionRows(sorted, k, b);
    var p :| 0 <= p < |sorted| && sorted[p] == a;
    var q :| 0 <= q < |sorted| && sorted[q] == b;
    KickoffOfGame(sorted, p, q);
  }

  lemma {:induction false} TeamsOfMembers(game: Game, n: nat, team: string)
    requires n <= |game|
    ensures team in TeamsOf(game, n) <==> exists i :: 0 <= i < n && game[i].pregame.team == team
  {
    if n > 0 {
      TeamsOfMembers(game, n - 1, team);
    }
  }

  /** The teams of a game, each once and in text order, whatever the order of its rows. */
  lemma TeamsMeaning(game: Game, team: string, a: nat, b: nat)
    ensures team in SortedTeams(game) <==> exists i :: 0 <= i < |game| && game[i].pregame.team == team
    ensures a < b < |SortedTeams(game)| ==> TextLess(SortedTeams(game)[a], SortedTeams(game)[b])
  {
    hide Sort, TextLess;
    var teams := TeamsOf(game, |game|);
    TeamsOfMembers(game, |game|, team);
    SortedTeamsAreTeams(game, team);
    forall x, y, z | TextLess(x, y) && TextLess(y, z) ensures TextLess(x, z) {
      TextIsTransitive(x, y, z);
    }
    forall x, y ensures (TextLess(x, y) || TextLess(y, x) <==> x != y) && !(TextLess(x, y) && TextLess(y, x)) {
      TextIsTotal(x, y);
    }
    SortSorts(teams, TextLess);
    assert a < b < |SortedTeams(game)| ==> !TextLess(SortedTeams(game)[b], SortedTeams(game)[a]);
  }

  predicate NamesTeamGame(r: TeamRow, key: TeamKey) {
    key == (r.season, r.gameId, r.game.team)
  }

  /** A team game is known exactly when it was retained, and then it is the latest one retained under its key. */
  lemma {:induction false} TeamContextMeaning(rows: seq<TeamRow>, key: TeamKey)
    ensures key in TeamContext(rows) <==> exists i :: 0 <= i < |rows| && NamesTeamGame(rows[i], key)
    ensures key in TeamContext(rows) ==>
              exists i :: LatestTeamGame(rows, key, i) && TeamContext(rows)[key] == rows[i].game
  {
    if rows != [] {
      var n := |rows| - 1;
      TeamContextMeaning(rows[..n], key);
      if NamesTeamGame(rows[n], key) {
        assert LatestTeamGame(rows, key, n);
      } else if key in TeamContext(rows[..n]) {
        var i :| LatestTeamGame(rows[..n], key, i) && TeamContext(rows[..n])[key] == rows[..n][i].game;
        assert LatestTeamGame(rows, key, i);
      }
    }
  }

  predicate LatestTeamGame(rows: seq<TeamRow>, key: TeamKey, i: int) {
    0 <= i < |rows| && NamesTeamGame(rows[i], key) && forall j :: i < j < |rows| ==> !NamesTeamGame(rows[j], key)
  }

  // ---- the order of the output ---------------------------------------------

  lemma {:induction false} TableRowIsEmitted(x: Inputs, games: seq<Game>, n: nat, row: FeatureRow)
    returns (k: nat, i: nat)
    requires NoEmptyGame(games) && n <= |games| && row in TableBefore(x, games, n)
    ensures k < n && i < |games[k]| && row == FeatureRowOf(x, games, k, games[k][i])
  {
    hide FeatureRowOf;
    if row in TableBefore(x, games, n - 1) {
      k, i := TableRowIsEmitted(x, games, n - 1, row);
    } else {
      k := n - 1;
      i :| 0 <= i < |GameFeatures(x, games, k)| && GameFeatures(x, games, k)[i] == row;
    }
  }

  lemma {:induction false} GamesAreApart(rows: seq<Row>, j: nat, k: nat, a: Row, b: Row)
    requires j < |Partition(rows)| && k < |Partition(rows)| && a in Partition(rows)[j] && b in Partition(rows)[k]
    requires a.pregame.gameId == b.pregame.gameId
    ensures j == k
    decreases |rows|
  {
    hide OfGame, NotOfGame;
    var gameId := rows[0].pregame.gameId;
    var rest := NotOfGame(rows, gameId);
    GroupRows(rows, gameId);
    if j > 0 && k > 0 {
      GamesAreApart(rest, j - 1, k - 1, a, b);
    } else if j > 0 {
      PartitionRows(rest, j - 1, a);
    } else if k > 0 {
      PartitionRows(rest, k - 1, b);
    }
  }

  lemma EmittedKeysDiffer(x: Inputs, table: seq<Row>, a: FeatureRow, b: FeatureRow)
    requires UniqueKeys(table) && NoEmptyGame(Games(table))
    requires a in TableBefore(x, Games(table), |Games(table)|) && b in TableBefore(x, Games(table), |Games(table)|)
    requires a.pregame.player == b.pregame.player && a.pregame.gameId == b.pregame.gameId
    ensures a == b
  {
    hide FeaturesOf, KnowledgeBefore, TableBefore, Sort, RowLess, Partition, NoEmptyGame, UniqueKeys;
    var sorted := Sort(table, (u: Row, v: Row) => RowLess(u.pregame, v.pregame));
    var games: seq<Game> := Games(table);
    var k, i := TableRowIsEmitted(x, games, |games|, a);
    var l, j := TableRowIsEmitted(x, games, |games|, b);
    var r, s := games[k][i], games[l][j];
    GamesAreApart(sorted, k, l, r, s);
    PartitionRows(sorted, k, r);
    PartitionRows(sorted, l, s);
    SortKeepsItems(table, (u: Row, v: Row) => RowLess(u.pregame, v.pregame));
    InTheMultiset(sorted, table, r);
    InTheMultiset(sorted, table, s);
    OneRowPerKey(table, r, s);
  }

  lemma OneRowPerKey(table: seq<Row>, r: Row, s: Row)
    requires UniqueKeys(table) && r in table && s in table
    requires r.pregame.player == s.pregame.player && r.pregame.gameId == s.pregame.gameId
    ensures r == s
  {
  }

  /** The output runs by kickoff, then by game, then by player. */
  lemma OutputIsChronological(x: Inputs, table: seq<Row>, i: nat, j: nat)
    requires UniqueKeys(table) && NoEmptyGame(Games(table))
    requires var output := Sort(TableBefore(x, Games(table), |Games(table)|),
                                (a: FeatureRow, b: FeatureRow) => RowLess(a.pregame, b.pregame));
             i < j < |output|
    ensures var output := Sort(TableBefore(x, Games(table), |Games(table)|),
                               (a: FeatureRow, b: FeatureRow) => RowLess(a.pregame, b.pregame));
            var a, b := output[i].pregame, output[j].pregame;
            && a.kickoff <= b.kickoff
            && (a.kickoff == b.kickoff ==> a.gameId == b.gameId || TextLess(a.gameId, b.gameId))
            && (a.kickoff == b.kickoff && a.gameId == b.gameId ==> a.player == b.player || TextLess(a.player, b.player))
  {
    hide TableBefore, Games, Sort, NoEmptyGame, UniqueKeys, TextLess;
    var less := (a: FeatureRow, b: FeatureRow) => RowLess(a.pregame, b.pregame);
    var rows := TableBefore(x, Games(table), |Games(table)|);
    FeatureOrderIsTransitive();
    forall a, b | a in rows && b in rows && a != b ensures less(a, b) || less(b, a) {
      if a.pregame.player == b.pregame.player && a.pregame.gameId == b.pregame.gameId {
        EmittedKeysDiffer(x, table, a, b);
      }
      TextIsTotal(a.pregame.gameId, b.pregame.gameId);
      TextIsTotal(a.pregame.player, b.pregame.player);
    }
    SortSorts(rows, less);
    var a, b := Sort(rows, less)[i].pregame, Sort(rows, less)[j].pregame;
    assert !RowLess(b, a);
    TextIsTotal(a.gameId, b.gameId);
    TextIsTotal(a.player, b.player);
  }

  lemma FeatureOrderIsTransitive()
    ensures Transitive((u: FeatureRow, v: FeatureRow) => RowLess(u.pregame, v.pregame))
    ensures Asymmetric((u: FeatureRow, v: FeatureRow) => RowLess(u.pregame, v.pregame))
  {
    forall a: FeatureRow, b: FeatureRow ensures !(RowLess(a.pregame, b.pregame) && RowLess(b.pregame, a.pregame)) {
      TextIsTotal(a.pregame.gameId, b.pregame.gameId);
      TextIsTotal(a.pregame.player, b.pregame.player);
    }
    forall a: FeatureRow, b: FeatureRow, c: FeatureRow
      | RowLess(a.pregame, b.pregame) && RowLess(b.pregame, c.pregame)
      ensures RowLess(a.pregame, c.pregame)
    {
      RowLessIsTransitive(a.pregame, b.pregame, c.pregame);
    }
  }
}
