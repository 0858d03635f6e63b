/** The `games` slice of the client store and its fourteen reducers. Each
    reducer assigns a few fields of the slice in place and leaves the others
    as they were. */
module GamesSlice {
  import opened Common
  import opened Catalog

  /** The body of `GET games/{game}` (the join endpoint): the game and, on a
      repeat join, the entry's stored points. */
  datatype GameDetail = GameDetail(game: Game, points: Option<int>)

  /** An error payload: the response body or the transport error's message. */
  type ErrorPayload = string

  /** The test `game.id !== id`. */
  function KeepsId(id: nat): (keep: Game -> bool) {
    (g: Game) => g.id != id
  }

  /** `deleteGameSuccess`'s filter: drop every game whose id is `id`. */
  function WithoutId(games: seq<Game>, id: nat): (r: seq<Game>)
    ensures forall g :: g in r <==> g in games && g.id != id
    ensures |r| <= |games|
  {
    Filter(games, KeepsId(id))
  }

  /** Removal keeps the surviving games in their order. */
  lemma WithoutIdKeepsOrder(a: seq<Game>, b: seq<Game>, id: nat)
    ensures WithoutId(a + b, id) == WithoutId(a, id) + WithoutId(b, id)
  {
    FilterAppend(a, b, KeepsId(id));
  }

  /** The list gets shorter exactly when some game carries the removed id. */
  lemma {:induction false} WithoutIdShrinksExactlyWhenPresent(games: seq<Game>, id: nat)
    ensures (exists g :: g in games && g.id == id) <==> |WithoutId(games, id)| < |games|
    decreases |games|
  {
    if games != [] {
      WithoutIdShrinksExactlyWhenPresent(games[1..], id);
      assert games == [games[0]] + games[1..];
      WithoutIdKeepsOrder([games[0]], games[1..], id);
      assert forall g :: g in games[1..] ==> g in games;
      if games[0].id == id {
        assert WithoutId([games[0]], id) == [];
      } else {
        assert WithoutId([games[0]], id) == [games[0]] by {
          assert [games[0]][1..] == [];
        }
      }
    }
  }

  class GamesState {
    var games: seq<Game>
    var game: Option<GameDetail>
    var loading: bool
    var error: Option<ErrorPayload>

    /** `initialState`: no games, no game, not loading, no error. */
    constructor ()
      ensures games == [] && game == None && !loading && error == None
    {
      games := [];
      game := None;
      loading := false;
      error := None;
    }

    /** The shared body of the four `*Start` reducers. */
    method Begin()
      modifies this
      ensures loading && error == None
      ensures games == old(games) && game == old(game)
    {
      loading := true;
      error := None;
    }

    /** The shared body of the five `*Failure` reducers. */
    method Fail(payload: ErrorPayload)
      modifies this
      ensures !loading && error == Some(payload)
      ensures games == old(games) && game == old(game)
    {
      loading := false;
      error := Some(payload);
    }

    method FetchGamesStart()
      modifies this
      ensures loading && error == None && games == old(games) && game == old(game)
    {
      Begin();
    }

    /** The list is replaced by the payload; the error is left as it was. */
    method FetchGamesSuccess(payload: seq<Game>)
      modifies this
      ensures !loading && games == payload
      ensures game == old(game) && error == old(error)
    {
      loading := false;
      games := payload;
    }

    method FetchGamesFailure(payload: ErrorPayload)
      modifies this
      ensures !loading && error == Some(payload) && games == old(games) && game == old(game)
    {
      Fail(payload);
    }

    method FetchGameByIdStart()
      modifies this
      ensures loading && error == None && games == old(games) && game == old(game)
    {
      Begin();
    }

    /** The current game is replaced by the payload; the list is untouched. */
    method FetchGameByIdSuccess(payload: GameDetail)
      modifies this
      ensures !loading && game == Some(payload)
      ensures games == old(games) && error == old(error)
    {
      loading := false;
      game := Some(payload);
    }

    method FetchGameByIdFailure(payload: ErrorPayload)
      modifies this
      ensures !loading && error == Some(payload) && games == old(games) && game == old(game)
    {
      Fail(payload);
    }

    method UpdateGameStart()
      modifies this
      ensures loading && error == None && games == old(games) && game == old(game)
    {
      Begin();
    }

    /** The current game is replaced by the payload; the list is untouched. */
    method UpdateGameSuccess(payload: GameDetail)
      modifies this
      ensures !loading && game == Some(payload)
      ensures games == old(games) && error == old(error)
    {
      loading := false;
      game := Some(payload);
    }

    method UpdateGameFailure(payload: ErrorPayload)
      modifies this
      ensures !loading && error == Some(payload) && games == old(games) && game == old(game)
    {
      Fail(payload);
    }

    method CreateGameStart()
      modifies this
      ensures loading && error == None && games == old(games) && game == old(game)
    {
      Begin();
    }

    /** `state.games.push(payload)`: the new game goes last and the others keep
        their places. */
    method CreateGameSuccess(payload: Game)
      modifies this
      ensures !loading && games == old(games) + [payload]
      ensures |games| == |old(games)| + 1 && games[..|old(games)|] == old(games)
      ensures game == old(game) && error == old(error)
    {
      loading := false;
      games := games + [payload];
    }

    method CreateGameFailure(payload: ErrorPayload)
      modifies this
      ensures !loading && error == Some(payload) && games == old(games) && game == old(game)
    {
      Fail(payload);
    }

    /** Drop the games with id `payload`, keeping the rest in order; loading,
        error and the current game are untouched. */
    method DeleteGameSuccess(payload: nat)
      modifies this
      ensures games == WithoutId(old(games), payload)
      ensures loading == old(loading) && error == old(error) && game == old(game)
    {
      games := WithoutId(games, payload);
    }

    method DeleteGameFailure(payload: ErrorPayload)
      modifies this
      ensures !loading && error == Some(payload) && games == old(games) && game == old(game)
    {
      Fail(payload);
    }
  }
}
