/** How the client components and the server ledger fit together over one
    visit to a game page: the join seeds the component's score, and the play
    report a component posts lands in the user's entry and total. */
module Session {
  import opened Common
  import opened Ledger
  import TicTacToe
  import GuessGame

  /** The `points` the join response hands to the game component: present only
      on a repeat join. */
  function JoinedPoints(response: JoinResponse): (p: Option<int>) {
    match response
    case AlreadyJoined(p) => Some(p)
    case _ => None
  }

  /** After an authenticated join the component's starting score (`points || 0`)
      is the stored entry's points, for a first join and a repeat one alike. */
  lemma JoinSeedsScore(l: Ledger, user: UserId, game: GameId)
    ensures var (l', response) := Join(l, Some(user), game);
      && (user, game) in l'.entries
      && JoinedPoints(response).GetOr(0) == l'.entries[(user, game)].points
  {
  }

  /** For rules whose point amounts are integers, the requests the two games
      send carry an integer `points` and, if any, an integer `user_points`, so
      they are saved in full: the server answers them with neither a validation
      error nor a half-done write. */
  lemma ClientReportsAreSaved(l: Ledger, user: UserId, game: GameId, report: PlayReport, now: Stamp)
    requires user in l.totals
    ensures var (l', response) := Play(l, user, game, ToRequest(report), now);
      && response == Saved
      && l'.totals[user] == l.totals[user] + report.userPoints.GetOr(report.points)
  {
  }

  /** A tic-tac-toe win posts the new score as `points` and the increment as
      `user_points`: once saved, the entry holds the score the screen shows,
      and the total has grown by the increment, so total minus entry is what
      it was before whenever the entry was in step with the screen. */
  lemma TicTacToeWinKeepsEntryInStep(l: Ledger, user: UserId, game: GameId, s: TicTacToe.Screen,
                                     index: nat, r: real, points: int, now: Stamp)
    requires user in l.totals && TicTacToe.Consistent(s) && index < 9 && 0.0 <= r < 1.0
    requires TicTacToe.Click(s, index, r, points).0.PlayerWon?
    ensures var (outcome, t) := TicTacToe.Click(s, index, r, points);
      var l' := Play(l, user, game, ToRequest(outcome.report), now).0;
      && l'.entries[(user, game)].points == t.score
      && l'.totals[user] == l.totals[user] + points
      && ((user, game) in l.entries && l.entries[(user, game)].points == s.score ==>
            l'.totals[user] - l'.entries[(user, game)].points == l.totals[user] - l.entries[(user, game)].points)
  {
    TicTacToe.ClickScoresOnlyPlayerWins(s, index, r, points);
  }

  /** A number-guess round posts only `points`: once saved, the entry holds
      that round's points, not a running sum, and the total has grown by
      them. */
  lemma GuessRoundOverwritesEntry(l: Ledger, user: UserId, game: GameId, rules: GuessGame.Rules,
                                  guess: int, target: int, now: Stamp)
    requires user in l.totals
    ensures var points := GuessGame.GuessPoints(rules, guess, target);
      var l' := Play(l, user, game, ToRequest(PlayReport(points, None)), now).0;
      && l'.entries[(user, game)].points == points
      && l'.totals[user] == l.totals[user] + points
  {
  }

  /** Two exact guesses against the seeded rules: the entry shows 10, the
      total has grown by 20. */
  lemma TwoExactGuesses(l: Ledger, user: UserId, game: GameId, t1: Stamp, t2: Stamp)
    requires user in l.totals
    ensures var round := Report(game, ToRequest(PlayReport(GuessGame.GuessPoints(GuessGame.SeededRules, 7, 7), None)), t1);
      var again := round.(at := t2);
      var l' := PlayAll(l, user, [round, again]);
      && (user, game) in l'.entries && l'.entries[(user, game)].points == 10
      && l'.totals[user] == l.totals[user] + 20
  {
    var round := Report(game, ToRequest(PlayReport(GuessGame.GuessPoints(GuessGame.SeededRules, 7, 7), None)), t1);
    var again := round.(at := t2);
    PlayAllAddsTotalDelta(l, user, [round, again]);
    TotalDeltaOfPair(round, again);
    assert TotalDelta([round]) == 10 by { assert [round][1..] == []; }
    assert TotalDelta([again]) == 10 by { assert [again][1..] == []; }
    PlayAllLastWriteWins(l, user, [round, again], game);
  }
}
