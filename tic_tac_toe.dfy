/** The tic-tac-toe component: a 9-cell board, the winner check over the eight
    lines, the computer's random reply and the click and reset handlers, with
    the score the component keeps and reports to the server. */
module TicTacToe {
  import opened Common

  datatype Mark = X | O

  /** A square of the board: `null`, `"X"` or `"O"`. */
  type Cell = Option<Mark>

  /** The eight lines in the order the winner check scans them: the three rows,
      the three columns, then the two diagonals. */
  function Line(k: nat): (l: (nat, nat, nat))
    requires k < 8
    ensures l.0 < 9 && l.1 < 9 && l.2 < 9
    ensures l.0 != l.1 && l.1 != l.2 && l.0 != l.2
  {
    match k
    case 0 => (0, 1, 2)
    case 1 => (3, 4, 5)
    case 2 => (6, 7, 8)
    case 3 => (0, 3, 6)
    case 4 => (1, 4, 7)
    case 5 => (2, 5, 8)
    case 6 => (0, 4, 8)
    case _ => (2, 4, 6)
  }

  /** Line `k` holds three equal marks. */
  predicate LineWon(b: seq<Cell>, k: nat)
    requires |b| == 9 && k < 8
  {
    var (p, q, s) := Line(k);
    b[p].Some? && b[p] == b[q] && b[p] == b[s]
  }

  /** Line `k` holds three copies of `m`. */
  predicate LineOwnedBy(b: seq<Cell>, k: nat, m: Mark)
    requires |b| == 9 && k < 8
  {
    var (p, q, s) := Line(k);
    b[p] == Some(m) && b[q] == Some(m) && b[s] == Some(m)
  }

  /** Some line at position `k` or later holds three copies of `m`. */
  predicate OwnsALineFrom(b: seq<Cell>, m: Mark, k: nat)
    requires |b| == 9 && k <= 8
    decreases 8 - k
  {
    k < 8 && (LineOwnedBy(b, k, m) || OwnsALineFrom(b, m, k + 1))
  }

  /** No line at position `k` or later holds three equal marks. */
  predicate NoLineWonFrom(b: seq<Cell>, k: nat)
    requires |b| == 9 && k <= 8
    decreases 8 - k
  {
    k == 8 || (!LineWon(b, k) && NoLineWonFrom(b, k + 1))
  }

  /** The mark of the first won line at position `k` or later, if any: a mark
      that owns one of those lines, and none exactly when none of them is won. */
  function WinnerFrom(b: seq<Cell>, k: nat): (w: Cell)
    requires |b| == 9 && k <= 8
    ensures w.Some? ==> OwnsALineFrom(b, w.value, k)
    ensures w.None? <==> NoLineWonFrom(b, k)
    decreases 8 - k
  {
    if k == 8 then None
    else if LineWon(b, k) then b[Line(k).0]
    else WinnerFrom(b, k + 1)
  }

  /** The winner of a board, as the lines are scanned in order: a mark that
      owns some line, and none exactly when no line is won. */
  function Winner(b: seq<Cell>): (w: Cell)
    requires |b| == 9
    ensures w.Some? ==> OwnsALineFrom(b, w.value, 0)
    ensures w.None? <==> NoLineWonFrom(b, 0)
  {
    WinnerFrom(b, 0)
  }

  /** `WinnerFrom(b, k)` is the owner of the first won line at or after `k`. */
  lemma {:induction false} WinnerFromIsFirstWonLine(b: seq<Cell>, k: nat, m: Mark)
    requires |b| == 9 && k <= 8
    ensures WinnerFrom(b, k) == Some(m) <==>
      exists j :: k <= j < 8 && LineOwnedBy(b, j, m) && forall i :: k <= i < j ==> !LineWon(b, i)
    ensures WinnerFrom(b, k) == None <==> forall i :: k <= i < 8 ==> !LineWon(b, i)
    decreases 8 - k
  {
    if k < 8 {
      WinnerFromIsFirstWonLine(b, k + 1, m);
      if LineWon(b, k) {
        if b[Line(k).0] == Some(m) {
          assert LineOwnedBy(b, k, m);
        }
        if exists j :: k <= j < 8 && LineOwnedBy(b, j, m) && forall i :: k <= i < j ==> !LineWon(b, i) {
          var j :| k <= j < 8 && LineOwnedBy(b, j, m) && forall i :: k <= i < j ==> !LineWon(b, i);
          assert j == k;
        }
      } else {
        if WinnerFrom(b, k) == Some(m) {
          var j :| k + 1 <= j < 8 && LineOwnedBy(b, j, m) && forall i :: k + 1 <= i < j ==> !LineWon(b, i);
          assert forall i :: k <= i < j ==> !LineWon(b, i);
        }
      }
    }
  }

  /** The checker answers a mark exactly when some line is owned by it and
      every line scanned before that one is not won; it answers `null` exactly
      when no line is won. In particular it never answers a mark for a line
      with an empty square. */
  lemma WinnerIsFirstWonLine(b: seq<Cell>, m: Mark)
    requires |b| == 9
    ensures Winner(b) == Some(m) <==>
      exists j :: 0 <= j < 8 && LineOwnedBy(b, j, m) && forall i :: 0 <= i < j ==> !LineWon(b, i)
    ensures Winner(b) == None <==> forall i :: 0 <= i < 8 ==> !LineWon(b, i)
  {
    WinnerFromIsFirstWonLine(b, 0, m);
  }

  /** On a board nobody has won, placing `m` can only make `m` the winner. */
  lemma PlacingMarkCanOnlyWinForIt(b: seq<Cell>, i: nat, m: Mark)
    requires |b| == 9 && i < 9
    requires Winner(b) == None
    ensures Winner(b[i := Some(m)]) in {None, Some(m)}
  {
    var b' := b[i := Some(m)];
    var other := if m == X then O else X;
    WinnerIsFirstWonLine(b, other);
    WinnerIsFirstWonLine(b', other);
  }

  /** The winner check as the component runs it: a loop over the lines that
      returns on the first won one. */
  method CheckWinner(board: seq<Cell>) returns (w: Cell)
    requires |board| == 9
    ensures w == Winner(board)
  {
    var k := 0;
    while k < 8
      invariant 0 <= k <= 8
      invariant Winner(board) == WinnerFrom(board, k)
    {
      var (a, b, c) := Line(k);
      if board[a].Some? && board[a] == board[b] && board[a] == board[c] {
        return board[a];
      }
      k := k + 1;
    }
    return None;
  }

  /** The indices of the empty squares at `i` or later, in increasing order. */
  function EmptyFrom(b: seq<Cell>, i: nat): (e: seq<nat>)
    requires i <= |b|
    ensures forall j :: j in e <==> i <= j < |b| && b[j].None?
    ensures forall p, q :: 0 <= p < q < |e| ==> e[p] < e[q]
    decreases |b| - i
  {
    if i == |b| then []
    else
      var rest := EmptyFrom(b, i + 1);
      if b[i].None? then
        assert forall q :: 0 <= q < |rest| ==> i < rest[q] by {
          forall q | 0 <= q < |rest| ensures i < rest[q] {
            assert rest[q] in rest;
          }
        }
        [i] + rest
      else rest
  }

  /** `board.map((cell, index) => cell === null ? index : null).filter(...)`. */
  function EmptyIndices(b: seq<Cell>): (e: seq<nat>)
    ensures forall j :: j in e <==> 0 <= j < |b| && b[j].None?
    ensures forall p, q :: 0 <= p < q < |e| ==> e[p] < e[q]
  {
    EmptyFrom(b, 0)
  }

  /** The square the computer picks for a draw `r`, when there is a free one. */
  function ChosenCell(b: seq<Cell>, r: real): (c: nat)
    requires 0.0 <= r < 1.0 && |EmptyIndices(b)| > 0
    ensures c < |b| && b[c].None?
  {
    var e := EmptyIndices(b);
    var c := e[RandomBelow(r, |e|)];
    assert c in e;
    c
  }

  /** The computer's reply, in place. It fails (the source returns `null`)
      exactly when no square is free; otherwise it writes one `O` into the
      square chosen by the draw and changes nothing else. */
  method ComputerMove(board: array<Cell>, r: real) returns (moved: bool)
    requires 0.0 <= r < 1.0
    modifies board
    ensures moved <==> exists i :: 0 <= i < board.Length && old(board[i]).None?
    ensures moved ==> board[..] == old(board[..])[ChosenCell(old(board[..]), r) := Some(O)]
    ensures !moved ==> board[..] == old(board[..])
  {
    var empty := EmptyIndices(board[..]);
    if |empty| == 0 {
      assert forall i :: 0 <= i < board.Length ==> i !in empty && board[..][i] == board[i];
      return false;
    }
    var at := empty[RandomBelow(r, |empty|)];
    assert at in empty;
    board[at] := Some(O);
    return true;
  }

  /** `board.slice()`: a fresh array holding the squares of `board`. */
  method CopyBoard(board: seq<Cell>) returns (a: array<Cell>)
    ensures fresh(a) && a[..] == board
  {
    a := new Cell[|board|](i => if 0 <= i < |board| then board[i] else None);
  }

  /** What one click did, and the report it sent. */
  datatype ClickOutcome =
    | Ignored                       // occupied square, or the game is already decided
    | Continued                     // X placed, O replied, nobody won yet
    | ComputerWon                   // O's reply completed a line
    | PlayerWon(report: PlayReport) // X completed a line; the report was posted
    | Crashed                       // X filled the last square without winning: `checkWinner(null)` throws

  const WinMessage := "You win! Congratulations!"
  const LossMessage := "You lost the game!"

  /** The component state a click reads and writes. */
  datatype Screen = Screen(board: seq<Cell>, winner: Cell, score: int, message: string)

  /** Nine squares, and `winner` is what the checker says about the board. */
  predicate Consistent(s: Screen) {
    |s.board| == 9 && s.winner == Winner(s.board)
  }

  /** `handleClick(index)` on state `s`, with `r` the draw used by the computer's
      reply and `points` the game's `rules.points_for_exact`. */
  function Click(s: Screen, index: nat, r: real, points: int): (c: (ClickOutcome, Screen))
    requires Consistent(s) && index < 9 && 0.0 <= r < 1.0
    ensures |c.1.board| == 9
    ensures c.0 == Ignored || c.0 == Crashed ==> c.1 == s
    ensures c.0.PlayerWon? ==> c.1.score == s.score + points && c.0.report == PlayReport(c.1.score, Some(points))
    ensures !c.0.PlayerWon? ==> c.1.score == s.score
    ensures c.0 == ComputerWon ==> c.1.message == LossMessage
  {
    if s.board[index].Some? || s.winner.Some? then (Ignored, s)
    else
      var placed := s.board[index := Some(X)];
      if Winner(placed).Some? then
        (PlayerWon(PlayReport(s.score + points, Some(points))),
         Screen(placed, Winner(placed), s.score + points, WinMessage))
      else if |EmptyIndices(placed)| == 0 then (Crashed, s)
      else
        var replied := placed[ChosenCell(placed, r) := Some(O)];
        var w := Winner(replied);
        if w.Some? then (ComputerWon, Screen(replied, w, s.score, LossMessage))
        else (Continued, Screen(replied, w, s.score, s.message))
  }

  /** A click keeps the state consistent, and the only winner it can produce is
      the mover: X on the player's move, O on the computer's reply. */
  lemma ClickKeepsConsistent(s: Screen, index: nat, r: real, points: int)
    requires Consistent(s) && index < 9 && 0.0 <= r < 1.0
    ensures var (outcome, t) := Click(s, index, r, points);
      && Consistent(t)
      && (outcome.PlayerWon? ==> t.winner == Some(X))
      && (outcome == ComputerWon ==> t.winner == Some(O))
      && (outcome == Continued ==> t.winner == None)
  {
    if s.board[index].None? && s.winner.None? {
      var placed := s.board[index := Some(X)];
      PlacingMarkCanOnlyWinForIt(s.board, index, X);
      if Winner(placed).None? && |EmptyIndices(placed)| > 0 {
        PlacingMarkCanOnlyWinForIt(placed, ChosenCell(placed, r), O);
      }
    }
  }

  /** A click on an occupied square, or once a winner is set, changes nothing. */
  lemma ClickIgnoredIff(s: Screen, index: nat, r: real, points: int)
    requires Consistent(s) && index < 9 && 0.0 <= r < 1.0
    ensures Click(s, index, r, points).0 == Ignored <==> s.board[index].Some? || s.winner.Some?
    ensures Click(s, index, r, points).0 == Ignored ==> Click(s, index, r, points).1 == s
  {
  }

  /** A player win adds exactly `points` to the score and reports that
      increment as `user_points` with the new cumulative score as `points`;
      every other outcome keeps the score and reports nothing. */
  lemma ClickScoresOnlyPlayerWins(s: Screen, index: nat, r: real, points: int)
    requires Consistent(s) && index < 9 && 0.0 <= r < 1.0
    ensures var (outcome, t) := Click(s, index, r, points);
      && (outcome.PlayerWon? <==> s.board[index].None? && s.winner.None? && Winner(s.board[index := Some(X)]) == Some(X))
      && (outcome.PlayerWon? ==>
            t.score == s.score + points && outcome.report == PlayReport(t.score, Some(points))
            && t.board == s.board[index := Some(X)] && t.message == WinMessage)
      && (!outcome.PlayerWon? ==> t.score == s.score)
  {
    if s.board[index].None? && s.winner.None? {
      PlacingMarkCanOnlyWinForIt(s.board, index, X);
    }
  }

  /** When X does not win, the computer writes one `O` into a square that was
      empty after X's move and changes no other square; when no square is left
      the handler crashes and the state stays as it was. */
  lemma ClickComputerReply(s: Screen, index: nat, r: real, points: int)
    requires Consistent(s) && index < 9 && 0.0 <= r < 1.0
    requires s.board[index].None? && s.winner.None?
    requires Winner(s.board[index := Some(X)]) == None
    ensures var placed := s.board[index := Some(X)];
      var (outcome, t) := Click(s, index, r, points);
      && (outcome == Crashed <==> forall i :: 0 <= i < 9 ==> placed[i].Some?)
      && (outcome == Crashed ==> t == s)
      && (outcome != Crashed ==>
            exists c :: 0 <= c < 9 && placed[c].None? && t.board == placed[c := Some(O)])
  {
    var placed := s.board[index := Some(X)];
    if |EmptyIndices(placed)| == 0 {
      assert forall i :: 0 <= i < 9 ==> i !in EmptyIndices(placed);
    } else {
      var e := EmptyIndices(placed);
      assert e[0] in e;
      var c := ChosenCell(placed, r);
      assert placed[c].None?;
    }
  }

  /** The value of a click whose X completes a line. */
  lemma ClickWhenXWins(s: Screen, index: nat, r: real, points: int)
    requires Consistent(s) && index < 9 && 0.0 <= r < 1.0
    requires s.board[index].None? && s.winner.None? && Winner(s.board[index := Some(X)]).Some?
    ensures var placed := s.board[index := Some(X)];
      Click(s, index, r, points) ==
        (PlayerWon(PlayReport(s.score + points, Some(points))), Screen(placed, Winner(placed), s.score + points, WinMessage))
  {
  }

  /** The state of one mounted tic-tac-toe component. */
  class Engine {
    var board: seq<Cell>
    var isXNext: bool
    var winner: Cell
    var score: int
    var gameOverMessage: string
    /** `rules.points_for_exact` of the game being played. */
    const pointsForExact: int

    function State(): Screen
      reads this
    {
      Screen(board, winner, score, gameOverMessage)
    }

    ghost predicate Valid()
      reads this
    {
      Consistent(State()) && isXNext
    }

    /** A fresh component: empty board and a score seeded from the joined
        entry's points, or 0 when the join response carried none. */
    constructor (joinedPoints: Option<int>, pointsForExact: int)
      ensures Valid()
      ensures State() == Screen(seq(9, _ => None), None, joinedPoints.GetOr(0), "")
      ensures this.pointsForExact == pointsForExact
    {
      board := seq(9, _ => None);
      isXNext := true;
      winner := None;
      score := joinedPoints.GetOr(0);
      gameOverMessage := "";
      this.pointsForExact := pointsForExact;
      new;
      WinnerIsFirstWonLine(board, X);
    }

    /** A click on square `index`, with `r` the draw the computer's reply uses.
        The board is copied, X is written into the copy, and the computer's
        reply is written into the same copy in place. */
    method HandleClick(index: nat, r: real) returns (outcome: ClickOutcome)
      requires Valid() && index < 9 && 0.0 <= r < 1.0
      modifies this
      ensures Valid()
      ensures (outcome, State()) == Click(old(State()), index, r, pointsForExact)
    {
      if board[index].Some? || winner.Some? {
        return Ignored;
      }
      outcome := PlaceX(index, r);
    }

    /** The click handler past its guard: X goes on a free square of a game
        that is not decided yet. */
    method PlaceX(index: nat, r: real) returns (outcome: ClickOutcome)
      requires Valid() && index < 9 && 0.0 <= r < 1.0
      requires board[index].None? && winner.None?
      modifies this
      ensures Valid()
      ensures (outcome, State()) == Click(old(State()), index, r, pointsForExact)
    {
      ghost var before := State();
      var newBoard := CopyBoard(board);
      newBoard[index] := Some(X);
      ghost var placed := before.board[index := Some(X)];
      assert newBoard[..] == placed;
      var playerWinner := CheckWinner(newBoard[..]);
      if playerWinner.None? {
        outcome := Reply(newBoard, r, before, index);
      } else {
        // The source also tests `playerWinner === "X"`; on a consistent state X
        // is the only mark that can win here (see ClickKeepsConsistent).
        board := newBoard[..];
        winner := playerWinner;
        var increment := pointsForExact;
        var updatedScore := score + increment;
        score := updatedScore;
        gameOverMessage := WinMessage;
        outcome := PlayerWon(PlayReport(updatedScore, Some(increment)));
        assert Click(before, index, r, pointsForExact) == (outcome, State()) by {
          assert playerWinner == Winner(placed);
          ClickWhenXWins(before, index, r, pointsForExact);
        }
      }
    }

    /** The click handler once X has not won: the computer replies into the
        copied board `newBoard` and the state is settled from its answer. */
    method Reply(newBoard: array<Cell>, r: real, ghost before: Screen, ghost index: nat) returns (outcome: ClickOutcome)
      requires Valid() && State() == before && index < 9 && 0.0 <= r < 1.0
      requires before.board[index].None? && before.winner.None?
      requires newBoard[..] == before.board[index := Some(X)] && Winner(newBoard[..]).None?
      modifies this, newBoard
      ensures Valid()
      ensures (outcome, State()) == Click(before, index, r, pointsForExact)
    {
      ghost var expected := Click(before, index, r, pointsForExact);
      ghost var placed := newBoard[..];
      var moved := ComputerMove(newBoard, r);
      if !moved {
        assert expected == (Crashed, before) by {
          assert forall i :: 0 <= i < 9 ==> placed[i].Some? && i !in EmptyIndices(placed);
        }
        return Crashed;
      }
      ghost var replied := placed[ChosenCell(placed, r) := Some(O)];
      assert newBoard[..] == replied;
      var computerWinner := CheckWinner(newBoard[..]);
      board := newBoard[..];
      winner := computerWinner;
      if computerWinner.Some? {
        gameOverMessage := LossMessage;
        outcome := ComputerWon;
      } else {
        outcome := Continued;
      }
      assert expected == (outcome, State()) by {
        assert |EmptyIndices(placed)| > 0;
      }
    }

    /** The reset button: a fresh board, no winner, no message; the score is kept. */
    method ResetGame()
      requires Valid()
      modifies this
      ensures Valid()
      ensures State() == Screen(seq(9, _ => None), None, old(score), "")
    {
      board := seq(9, _ => None);
      isXNext := true;
      winner := None;
      gameOverMessage := "";
      WinnerIsFirstWonLine(board, X);
    }
  }

  /** The top row taken by X, with O elsewhere, is won by X. */
  lemma TopRowWins()
    ensures Winner([Some(X), Some(X), Some(X), Some(O), Some(O), None, None, None, None]) == Some(X)
  {
  }
}
