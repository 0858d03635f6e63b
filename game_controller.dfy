/** The game endpoints of the server: the catalogue listing, create, update,
    session logging, join and play. The database is the object's state: the
    `games` table, the `game_user` pivot rows with the users' totals, and the
    `game_users` session log. */
module GameController {
  import opened Common
  import opened Catalog
  import opened Ledger

  datatype StoreResponse = StoreRejected | Created(game: Game)          // 422 | 201
  datatype UpdateResponse = NotFound | UpdateRejected | UpdateSaved(game: Game) // 404 | 422 | 200

  /** The body of a `storeGameSession` request; `metadata` is the JSON text of
      the array that was sent. */
  datatype SessionInput = SessionInput(gameId: Field<nat>, userId: Field<nat>, isWinner: Field<bool>, metadata: Field<string>)

  /** A row of the session log. */
  datatype SessionRecord = SessionRecord(gameId: nat, userId: nat, isWinner: bool, playedAt: Stamp, metadata: string)

  datatype SessionResponse = SessionRejected | SessionCreated(record: SessionRecord) // 422 | 201

  /** `json_encode($request->input('metadata', []))`: the sent array's JSON,
      `[]` when the key is missing and `null` when it was sent as null; the
      two defaults are never confused. */
  function StoredMetadata(m: Field<string>): (text: string)
    ensures m.Given? ==> text == m.value
    ensures m.Absent? ==> text == "[]"
    ensures m.Null? ==> text == "null"
  {
    match m
    case Absent => "[]"
    case Null => "null"
    case Given(text) => text
  }

  /** The `storeGameSession` rules: an existing game, an existing user and a
      boolean `is_winner` are required. An accepted request names a game some
      row of the table carries. */
  function SessionValid(input: SessionInput, games: seq<Game>, users: set<UserId>): (ok: bool)
    ensures ok ==> input.gameId.Given? && exists g :: g in games && g.id == input.gameId.value
    ensures ok ==> input.userId.Given? && input.userId.value in users && input.isWinner.Given?
  {
    && input.gameId.Given? && Find(games, input.gameId.value).Some?
    && input.userId.Given? && input.userId.value in users
    && input.isWinner.Given?
  }

  class Server {
    var games: seq<Game>
    /** The next auto-increment id of the `games` table. */
    var nextId: nat
    const categories: set<nat>
    var entries: map<(UserId, GameId), Entry>
    /** The `points` column of the `users` table; its keys are the users. */
    var totals: map<UserId, int>
    var sessions: seq<SessionRecord>

    /** Ids are unique and below the auto-increment counter. */
    ghost predicate Valid()
      reads this
    {
      && (forall i :: 0 <= i < |games| ==> games[i].id < nextId)
      && (forall i, j :: 0 <= i < j < |games| ==> games[i].id != games[j].id)
    }

    function State(): Ledger
      reads this
    {
      Ledger(entries, totals)
    }

    /** A database with the given categories and users and no games yet. */
    constructor (categories: set<nat>, totals: map<UserId, int>)
      ensures Valid()
      ensures games == [] && entries == map[] && sessions == []
      ensures this.categories == categories && this.totals == totals
    {
      games := [];
      nextId := 1;
      this.categories := categories;
      entries := map[];
      this.totals := totals;
      sessions := [];
    }

    /** `index`: the active games, in table order. */
    method Index() returns (listing: seq<Game>)
      ensures listing == Active(games)
      ensures forall g :: g in listing <==> g in games && g.isActive == Some(true)
    {
      listing := Active(games);
    }

    /** `store`: on valid input, insert a game with the next id. */
    method Store(input: GameInput, storedPath: string) returns (response: StoreResponse)
      requires Valid()
      modifies this
      ensures Valid()
      ensures !StoreValid(input, categories) ==> response == StoreRejected && games == old(games) && nextId == old(nextId)
      ensures StoreValid(input, categories) ==>
        && response == Created(NewGame(old(nextId), input, storedPath))
        && games == old(games) + [response.game]
        && nextId == old(nextId) + 1
      ensures forall g :: g in old(games) ==> response.Created? ==> g.id != response.game.id
      ensures State() == old(State()) && sessions == old(sessions)
    {
      if !StoreValid(input, categories) {
        return StoreRejected;
      }
      var game := NewGame(nextId, input, storedPath);
      games := games + [game];
      nextId := nextId + 1;
      response := Created(game);
    }

    /** `update`: 404 for an unknown id, 422 for invalid input, otherwise copy
        the sent fields into the game. Nothing else in the database changes. */
    method Update(id: nat, input: GameInput, storedPath: string) returns (response: UpdateResponse)
      requires Valid()
      modifies this
      ensures Valid()
      ensures Find(old(games), id).None? ==> response == NotFound && games == old(games)
      ensures Find(old(games), id).Some? && !UpdateValid(input, categories) ==>
        response == UpdateRejected && games == old(games)
      ensures Find(old(games), id).Some? && UpdateValid(input, categories) ==>
        var i := Find(old(games), id).value;
        && games == old(games)[i := Updated(old(games)[i], input, storedPath)]
        && response == UpdateSaved(games[i])
        && games[i].rules == old(games)[i].rules
      ensures nextId == old(nextId) && State() == old(State()) && sessions == old(sessions)
    {
      var found := Find(games, id);
      if found.None? {
        return NotFound;
      }
      if !UpdateValid(input, categories) {
        return UpdateRejected;
      }
      var i := found.value;
      var game := Updated(games[i], input, storedPath);
      games := games[i := game];
      response := UpdateSaved(game);
    }

    /** `storeGameSession`: on valid input, append a session row. */
    method StoreGameSession(input: SessionInput, now: Stamp) returns (response: SessionResponse)
      modifies this
      ensures !SessionValid(input, games, totals.Keys) ==> response == SessionRejected && sessions == old(sessions)
      ensures SessionValid(input, games, totals.Keys) ==>
        && response == SessionCreated(SessionRecord(input.gameId.value, input.userId.value, input.isWinner.value,
                                                    now, StoredMetadata(input.metadata)))
        && sessions == old(sessions) + [response.record]
      ensures games == old(games) && nextId == old(nextId) && State() == old(State())
    {
      if !SessionValid(input, games, totals.Keys) {
        return SessionRejected;
      }
      var record := SessionRecord(input.gameId.value, input.userId.value, input.isWinner.value,
                                  now, StoredMetadata(input.metadata));
      sessions := sessions + [record];
      response := SessionCreated(record);
    }

    /** `joinGame` for the bound game `game`: see `Ledger.Join`. */
    method JoinGame(user: Option<UserId>, game: GameId) returns (response: JoinResponse)
      requires Find(games, game).Some?
      modifies this
      ensures (State(), response) == Join(old(State()), user, game)
      ensures games == old(games) && nextId == old(nextId) && sessions == old(sessions)
    {
      if user.None? {
        return Unauthenticated;
      }
      var key := (user.value, game);
      if key in entries {
        return AlreadyJoined(entries[key].points);
      }
      entries := entries[key := Entry(0, None)];
      response := Joined;
    }

    /** `playGame` for the authenticated `user` and the bound game `game`:
        see `Ledger.Play`. */
    method PlayGame(user: UserId, game: GameId, request: PlayRequest, now: Stamp) returns (response: PlayResponse)
      requires user in totals && Find(games, game).Some?
      modifies this
      ensures (State(), response) == Play(old(State()), user, game, request, now)
      ensures games == old(games) && nextId == old(nextId) && sessions == old(sessions)
    {
      if !(request.points.Given? && !request.points.value.NotInteger?) {
        return ValidationFailed;
      }
      entries := entries[(user, game) := Entry(AsInteger(request.points.value), Some(now))];
      var increment := if request.userPoints.Some? then request.userPoints.value else request.points.value;
      if !increment.Integer? {
        return IncrementFailed;
      }
      totals := totals[user := totals[user] + increment.n];
      response := Saved;
    }
  }
}
