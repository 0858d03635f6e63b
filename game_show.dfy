/** The game page's choice of what to render from the `games` slice: a
    loading notice, a not-found notice, one of the two playable variants, or
    an unknown-type notice. The variant is chosen by the game's exact name. */
module GameShow {
  import opened Common
  import opened GamesSlice

  const GuessName := "Guess the Number"
  const TicTacToeName := "Tic Tac Toe"

  datatype View =
    | LoadingView
    | NotFoundView
    | GuessView(detail: GameDetail)
    | TicTacToeView(detail: GameDetail)
    | UnknownView

  /** `renderGame`: loading wins over everything; then a missing game; then
      the name picks the variant, and the chosen component gets the whole
      detail, points included. */
  function RenderGame(loading: bool, game: Option<GameDetail>): (v: View)
    ensures v == LoadingView <==> loading
    ensures v == NotFoundView <==> !loading && game.None?
    ensures v.GuessView? <==> !loading && game.Some? && game.value.game.name == GuessName
    ensures v.TicTacToeView? <==> !loading && game.Some? && game.value.game.name == TicTacToeName
    ensures v == UnknownView <==>
      !loading && game.Some? && game.value.game.name != GuessName && game.value.game.name != TicTacToeName
    ensures (v.GuessView? || v.TicTacToeView?) ==> game == Some(v.detail)
  {
    if loading then LoadingView
    else if game.None? then NotFoundView
    else if game.value.game.name == GuessName then GuessView(game.value)
    else if game.value.game.name == TicTacToeName then TicTacToeView(game.value)
    else UnknownView
  }

  /** The match is exact: a name differing only in letter case, such as
      `tic tac toe`, renders the unknown-type notice. */
  lemma NameMatchIsExact(detail: GameDetail)
    requires detail.game.name == "tic tac toe"
    ensures RenderGame(false, Some(detail)) == UnknownView
  {
    assert detail.game.name[0] != TicTacToeName[0];
    assert detail.game.name[0] != GuessName[0];
  }

  /** The view depends on the game's name and not on its other fields or on
      its stored points. */
  lemma RenderDependsOnlyOnName(loading: bool, a: GameDetail, b: GameDetail)
    requires a.game.name == b.game.name
    ensures RenderGame(loading, Some(a)).GuessView? == RenderGame(loading, Some(b)).GuessView?
    ensures RenderGame(loading, Some(a)).TicTacToeView? == RenderGame(loading, Some(b)).TicTacToeView?
    ensures RenderGame(loading, Some(a)) == UnknownView <==> RenderGame(loading, Some(b)) == UnknownView
  {
  }
}
