/** The points ledger behind `joinGame` and `playGame`: one entry per (user,
    game) pair in the `game_user` pivot table, and each user's account-wide
    `points` counter. */
module Ledger {
  import opened Common

  type UserId = nat
  type GameId = nat

  /** An opaque `now()` timestamp. */
  type Stamp = nat

  /** A pivot row: the game's points for the user and when it was last played. */
  datatype Entry = Entry(points: int, playedAt: Option<Stamp>)

  /** The pivot rows and the users' account totals. */
  datatype Ledger = Ledger(entries: map<(UserId, GameId), Entry>, totals: map<UserId, int>)

  /** A request value, by how the `integer` rule and `increment` treat it:
      an integer (or a string of one), which both accept; JSON `true`, which
      the rule accepts as 1 but `increment` refuses as non-numeric; or
      anything else, which the rule rejects and `increment` refuses. */
  datatype Scalar = Integer(n: int) | True | NotInteger

  /** The integer a value passing the `integer` rule stands for. */
  function AsInteger(v: Scalar): (n: int)
    requires !v.NotInteger?
    ensures v.Integer? ==> n == v.n
    ensures v.True? ==> n == 1
  {
    if v.True? then 1 else v.n
  }

  /** The body of a play request: `points`, and `user_points` when sent (a
      `null` counts as not sent, as PHP's `??` does). */
  datatype PlayRequest = PlayRequest(points: Field<Scalar>, userPoints: Option<Scalar>)

  /** The request a client's play report becomes. */
  function ToRequest(report: PlayReport): (req: PlayRequest)
    ensures PlayValid(req) && !IncrementRefused(req)
    ensures req.points.value == Integer(report.points)
    ensures Delta(req) == report.userPoints.GetOr(report.points)
  {
    PlayRequest(Given(Integer(report.points)),
                if report.userPoints.Some? then Some(Integer(report.userPoints.value)) else None)
  }

  datatype JoinResponse =
    | Unauthenticated          // 401
    | AlreadyJoined(points: int) // the entry's stored points
    | Joined                   // a fresh entry was created

  datatype PlayResponse =
    | ValidationFailed // 422
    | IncrementFailed  // 500 from `increment`, after the entry was written
    | Saved

  /** `points` is required and passes the `integer` rule. */
  predicate PlayValid(req: PlayRequest) {
    req.points.Given? && !req.points.value.NotInteger?
  }

  /** The raw value handed to `increment`: `user_points ?? points`. */
  function Operand(req: PlayRequest): (v: Scalar)
    requires PlayValid(req)
    ensures req.userPoints.Some? ==> v == req.userPoints.value
    ensures req.userPoints.None? ==> v == req.points.value
  {
    req.userPoints.GetOr(req.points.value)
  }

  /** `increment` refuses its operand as non-numeric. */
  predicate IncrementRefused(req: PlayRequest)
    requires PlayValid(req)
  {
    !Operand(req).Integer?
  }

  /** What a valid request adds to the account total (`user_points ??
      points`): `user_points` when sent, otherwise `points`. */
  function Delta(req: PlayRequest): (d: int)
    requires PlayValid(req) && !IncrementRefused(req)
    ensures req.userPoints.None? ==> req.points.value.Integer? && d == req.points.value.n
    ensures req.userPoints.Some? ==> req.userPoints.value.Integer? && d == req.userPoints.value.n
  {
    Operand(req).n
  }

  /** `joinGame`: refuse an anonymous caller; return the stored points of an
      existing entry; otherwise create the entry with 0 points. A join never
      touches a total, and afterwards an authenticated user has the entry. */
  function Join(l: Ledger, user: Option<UserId>, game: GameId): (r: (Ledger, JoinResponse))
    ensures r.0.totals == l.totals
    ensures r.1 == Unauthenticated <==> user.None?
    ensures user.Some? ==> (user.value, game) in r.0.entries && r.0.entries.Keys == l.entries.Keys + {(user.value, game)}
  {
    if user.None? then (l, Unauthenticated)
    else if (user.value, game) in l.entries then (l, AlreadyJoined(l.entries[(user.value, game)].points))
    else (l.(entries := l.entries[(user.value, game) := Entry(0, None)]), Joined)
  }

  /** `playGame`: refuse a request whose `points` is missing or fails the
      `integer` rule; otherwise overwrite the entry with `points` and the time,
      then add `user_points ?? points` to the user's total. A non-numeric
      operand (a non-numeric `user_points`, or a `true` that passed as `points`)
      makes the increment throw after the entry was written: the entry keeps
      the write, the total does not change. No outcome adds users, and a refused request writes nothing. */
  function Play(l: Ledger, user: UserId, game: GameId, req: PlayRequest, now: Stamp): (r: (Ledger, PlayResponse))
    requires user in l.totals
    ensures r.0.totals.Keys == l.totals.Keys
    ensures r.1 == ValidationFailed ==> r.0 == l
    ensures r.1 != ValidationFailed ==> (user, game) in r.0.entries && r.0.entries[(user, game)].playedAt == Some(now)
  {
    if !PlayValid(req) then (l, ValidationFailed)
    else
      var entries := l.entries[(user, game) := Entry(AsInteger(req.points.value), Some(now))];
      if IncrementRefused(req) then (Ledger(entries, l.totals), IncrementFailed)
      else (Ledger(entries, l.totals[user := l.totals[user] + Delta(req)]), Saved)
  }

  /** An anonymous join is refused and touches nothing. */
  lemma JoinUnauthenticated(l: Ledger, game: GameId)
    ensures Join(l, None, game) == (l, Unauthenticated)
  {
  }

  /** A join for an existing entry returns the entry's points and writes
      nothing; a first join creates exactly one entry, with 0 points, and
      touches no other entry and no total. */
  lemma JoinOutcomes(l: Ledger, user: UserId, game: GameId)
    ensures var (l', response) := Join(l, Some(user), game);
      && ((user, game) in l.entries ==> l' == l && response == AlreadyJoined(l.entries[(user, game)].points))
      && ((user, game) !in l.entries ==>
            && response == Joined
            && l'.entries.Keys == l.entries.Keys + {(user, game)}
            && l'.entries[(user, game)] == Entry(0, None)
            && (forall k :: k in l.entries ==> l'.entries[k] == l.entries[k])
            && l'.totals == l.totals)
  {
  }

  /** Joining twice is joining once: the second join changes nothing and
      reports the points the first one left. */
  lemma JoinIdempotent(l: Ledger, user: UserId, game: GameId)
    ensures var (l1, _) := Join(l, Some(user), game);
      var (l2, response) := Join(l1, Some(user), game);
      l2 == l1 && response == AlreadyJoined(l1.entries[(user, game)].points)
  {
  }

  /** A request whose `points` is missing or fails the `integer` rule is refused and changes neither
      the entry nor the total; a valid one is saved. */
  lemma PlayRejectsInvalid(l: Ledger, user: UserId, game: GameId, req: PlayRequest, now: Stamp)
    requires user in l.totals
    ensures Play(l, user, game, req, now).1 == ValidationFailed <==> !PlayValid(req)
    ensures !PlayValid(req) ==> Play(l, user, game, req, now).0 == l
  {
  }

  /** After a valid play the entry holds the request's `points`, whether or
      not it existed before, and no other entry changes. The user's total grows
      by `user_points`, or by `points` when none was sent; when that operand is
      not numeric the answer is a server error and the total stays as it was.
      No other user's total changes. */
  lemma PlayOverwritesEntryAndAddsDelta(l: Ledger, user: UserId, game: GameId, req: PlayRequest, now: Stamp)
    requires user in l.totals && PlayValid(req)
    ensures var (l', response) := Play(l, user, game, req, now);
      && l'.entries[(user, game)].points == AsInteger(req.points.value)
      && (forall k :: k in l.entries && k != (user, game) ==> k in l'.entries && l'.entries[k] == l.entries[k])
      && l'.entries.Keys == l.entries.Keys + {(user, game)}
      && (response == IncrementFailed <==> !req.userPoints.GetOr(req.points.value).Integer?)
      && (response == IncrementFailed ==> l'.totals == l.totals)
      && (response == Saved ==>
            l'.totals[user] == l.totals[user] + req.userPoints.GetOr(req.points.value).n)
      && (forall u :: u in l.totals && u != user ==> u in l'.totals && l'.totals[u] == l.totals[u])
      && l'.totals.Keys == l.totals.Keys
  {
  }

  /** A JSON `true` as `points`, with no `user_points`, passes validation as
      1 and is written to the entry, but `increment` refuses it: the answer is a
      server error and the total is unchanged. */
  lemma BooleanPointsFailAfterWrite(l: Ledger, user: UserId, game: GameId, now: Stamp)
    requires user in l.totals
    ensures var (l', response) := Play(l, user, game, PlayRequest(Given(True), None), now);
      && response == IncrementFailed
      && (user, game) in l'.entries && l'.entries[(user, game)] == Entry(1, Some(now))
      && l'.totals == l.totals
  {
  }

  /** One play report in a series: the game it is for, the body and the time. */
  datatype Report = Report(game: GameId, request: PlayRequest, at: Stamp)

  /** Apply a user's reports one after another. */
  function PlayAll(l: Ledger, user: UserId, reports: seq<Report>): (l': Ledger)
    requires user in l.totals
    ensures user in l'.totals && l'.totals.Keys == l.totals.Keys
    decreases |reports|
  {
    if reports == [] then l
    else
      var r := reports[0];
      PlayAll(Play(l, user, r.game, r.request, r.at).0, user, reports[1..])
  }

  /** What a report adds to the total: its delta when it is saved, nothing
      when it is refused or its increment fails. */
  function Added(req: PlayRequest): (d: int) {
    if PlayValid(req) && !IncrementRefused(req) then Delta(req) else 0
  }

  /** The sum of what the reports add to the total. */
  function TotalDelta(reports: seq<Report>): (d: int)
    decreases |reports|
  {
    if reports == [] then 0
    else Added(reports[0].request) + TotalDelta(reports[1..])
  }

  lemma {:induction false} TotalDeltaAppend(a: seq<Report>, b: seq<Report>)
    ensures TotalDelta(a + b) == TotalDelta(a) + TotalDelta(b)
    decreases |a|
  {
    if a == [] {
      assert a + b == b;
    } else {
      assert (a + b)[1..] == a[1..] + b;
      TotalDeltaAppend(a[1..], b);
    }
  }

  /** Additivity: after a series of reports, across any games, the user's
      total has grown by exactly the sum of the saved reports' deltas, and no
      other user's total has changed. */
  lemma {:induction false} PlayAllAddsTotalDelta(l: Ledger, user: UserId, reports: seq<Report>)
    requires user in l.totals
    ensures PlayAll(l, user, reports).totals[user] == l.totals[user] + TotalDelta(reports)
    ensures forall u :: u in l.totals && u != user ==> PlayAll(l, user, reports).totals[u] == l.totals[u]
    decreases |reports|
  {
    if reports != [] {
      var r := reports[0];
      var next := Play(l, user, r.game, r.request, r.at).0;
      PlayAllAddsTotalDelta(next, user, reports[1..]);
    }
  }

  /** The position of the last valid report for `game` before position `n`. */
  function LastValidFor(reports: seq<Report>, game: GameId, n: nat): (i: Option<nat>)
    requires n <= |reports|
    ensures i.Some? ==> i.value < n && reports[i.value].game == game && PlayValid(reports[i.value].request)
    ensures i.Some? ==> forall j :: i.value < j < n ==> !(reports[j].game == game && PlayValid(reports[j].request))
    ensures i.None? ==> forall j :: 0 <= j < n ==> !(reports[j].game == game && PlayValid(reports[j].request))
  {
    if n == 0 then None
    else if reports[n - 1].game == game && PlayValid(reports[n - 1].request) then Some(n - 1)
    else LastValidFor(reports, game, n - 1)
  }

  /** Last write wins: after a series of reports, a game's entry holds the
      `points` of the last valid report for that game, or is as it was when
      there was none. */
  lemma {:induction false} PlayAllLastWriteWins(l: Ledger, user: UserId, reports: seq<Report>, game: GameId)
    requires user in l.totals
    ensures var l' := PlayAll(l, user, reports);
      match LastValidFor(reports, game, |reports|)
      case Some(i) => (user, game) in l'.entries && l'.entries[(user, game)].points == AsInteger(reports[i].request.points.value)
      case None => ((user, game) in l'.entries <==> (user, game) in l.entries)
                   && ((user, game) in l.entries ==> l'.entries[(user, game)] == l.entries[(user, game)])
    decreases |reports|
  {
    if reports != [] {
      var r := reports[0];
      var next := Play(l, user, r.game, r.request, r.at).0;
      PlayAllLastWriteWins(next, user, reports[1..], game);
      var tail := reports[1..];
      var i := LastValidFor(reports, game, |reports|);
      var i' := LastValidFor(tail, game, |tail|);
      if i'.Some? {
        assert reports[i'.value + 1] == tail[i'.value];
        if i.None? || i.value != i'.value + 1 {
          assert false;
        }
      }
    }
  }

  /** The delta of a pair of reports does not depend on their order. */
  lemma TotalDeltaOfPair(a: Report, b: Report)
    ensures TotalDelta([a, b]) == TotalDelta([b, a]) == TotalDelta([a]) + TotalDelta([b])
  {
    TotalDeltaAppend([a], [b]);
    TotalDeltaAppend([b], [a]);
    assert [a] + [b] == [a, b] && [b] + [a] == [b, a];
  }

  /** The totals after a series depend only on the series' summed delta. */
  lemma SameDeltaSameTotals(l: Ledger, user: UserId, r1: seq<Report>, r2: seq<Report>)
    requires user in l.totals && TotalDelta(r1) == TotalDelta(r2)
    ensures PlayAll(l, user, r1).totals == PlayAll(l, user, r2).totals
  {
    var t1 := PlayAll(l, user, r1).totals;
    var t2 := PlayAll(l, user, r2).totals;
    PlayAllAddsTotalDelta(l, user, r1);
    PlayAllAddsTotalDelta(l, user, r2);
    assert forall u :: u in t1 ==> t1[u] == t2[u];
  }

  /** Two reports applied in either order leave the same totals. */
  lemma PlaysCommuteOnTotal(l: Ledger, user: UserId, a: Report, b: Report)
    requires user in l.totals
    ensures PlayAll(l, user, [a, b]).totals == PlayAll(l, user, [b, a]).totals
  {
    TotalDeltaOfPair(a, b);
    SameDeltaSameTotals(l, user, [a, b], [b, a]);
  }

  /** Two reports with deltas 10 and 15 raise the total by 25 in either order. */
  lemma TwoReportsAddUp(l: Ledger, user: UserId, game: GameId, t1: Stamp, t2: Stamp)
    requires user in l.totals
    ensures var a := Report(game, PlayRequest(Given(Integer(10)), None), t1);
      var b := Report(game, PlayRequest(Given(Integer(40)), Some(Integer(15))), t2);
      && PlayAll(l, user, [a, b]).totals[user] == l.totals[user] + 25
      && PlayAll(l, user, [b, a]).totals[user] == l.totals[user] + 25
  {
    var a := Report(game, PlayRequest(Given(Integer(10)), None), t1);
    var b := Report(game, PlayRequest(Given(Integer(40)), Some(Integer(15))), t2);
    TotalDeltaOfPair(a, b);
    assert TotalDelta([a]) == 10 by { assert [a][1..] == []; }
    assert TotalDelta([b]) == 15 by { assert [b][1..] == []; }
    PlayAllAddsTotalDelta(l, user, [a, b]);
    PlaysCommuteOnTotal(l, user, a, b);
  }
}
