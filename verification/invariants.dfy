/** The invariant every reachable game state keeps, and what the operations
    of the game loop promise about one another. */
module Invariants {
  import opened Geometry
  import opened Directions
  import opened Rules

  /** No cell is covered twice. */
  predicate Distinct(cells: seq<Cell>)
  {
    forall i, j :: 0 <= i < j < |cells| ==> cells[i] != cells[j]
  }

  /** Every cell lies on the board. */
  predicate Inside(b: Board, cells: seq<Cell>)
  {
    forall i :: 0 <= i < |cells| ==> InBoard(b, cells[i])
  }

  /** Consecutive cells share a side: the body is a path from the head to the tail. */
  predicate Connected(cells: seq<Cell>)
  {
    forall i :: 0 <= i < |cells| - 1 ==> Adjacent(cells[i], cells[i + 1])
  }

  /** A snake of at least one cell, without repeated cells, on the board and connected;
      food on the board and off the snake; ten points for every cell grown. */
  predicate Invariant(b: Board, s: State)
  {
    WellFormed(b) &&
    |s.snake| >= 1 && Distinct(s.snake) && Inside(b, s.snake) && Connected(s.snake) &&
    InBoard(b, s.food) && s.food !in s.snake &&
    s.score == FoodPoints * (|s.snake| - 1)
  }

  /** The start cell lies on every board the game lays out. */
  lemma LayoutHoldsStartCell(size: int)
    requires size >= CellsPerSide
    ensures InBoard(Layout(size), StartCell)
  {
    InBoardIffBelowColumns(Layout(size), StartCell);
  }

  /** `startGame` establishes the invariant on a board holding the start cell. */
  lemma StartGameEstablishes(b: Board, highScore: int, draws: seq<Draw>)
    requires WellFormed(b) && InBoard(b, StartCell) && HasFreeDraw(b, [StartCell], draws)
    ensures Invariant(b, StartGame(b, highScore, draws))
  {
  }

  /** Putting a new head, on the board, off the body and next to the old head,
      in front of a valid body gives a valid body. */
  lemma PushHead(b: Board, head: Cell, body: seq<Cell>)
    requires Distinct(body) && Inside(b, body) && Connected(body)
    requires InBoard(b, head) && head !in body
    requires body != [] ==> Adjacent(head, body[0])
    ensures Distinct([head] + body) && Inside(b, [head] + body) && Connected([head] + body)
  {
    var grown := [head] + body;
    forall i, j | 0 <= i < j < |grown|
      ensures grown[i] != grown[j]
    {
      assert grown[j] == body[j - 1];
      if i > 0 {
        assert grown[i] == body[i - 1];
      }
    }
    forall i | 0 <= i < |grown| - 1
      ensures Adjacent(grown[i], grown[i + 1])
    {
      if i > 0 {
        assert grown[i] == body[i - 1] && grown[i + 1] == body[i];
      }
    }
  }

  /** A tick keeps the invariant. The collision test, made before the new head is
      put in front, is what keeps the body free of repeated cells. */
  lemma UpdatePreserves(b: Board, s: State, draws: seq<Draw>)
    requires Invariant(b, s) && CanFeed(b, s, draws)
    ensures Invariant(b, Update(b, s, draws))
  {
    if !s.isGameOver && !s.isPaused && !Dies(b, s) {
      var head := NextHead(s);
      var n := |s.snake|;
      if head == s.food {
        PushHead(b, head, s.snake);
      } else {
        var body := s.snake[..n - 1];
        assert forall i :: 0 <= i < |body| ==> body[i] == s.snake[i];
        assert head !in body;
        assert s.food !in body;
        PushHead(b, head, body);
      }
    }
  }

  /** Changing direction, pausing and ending the game leave the invariant intact. */
  lemma ControlsPreserve(b: Board, s: State, requested: Direction)
    requires Invariant(b, s)
    ensures Invariant(b, ChangeDirection(s, requested))
    ensures Invariant(b, TogglePause(s))
    ensures Invariant(b, GameOver(s))
  {
  }

  /** A tick that is not frozen and does not die puts the candidate head in front;
      the snake keeps its tail exactly when the head lands on the food. */
  lemma UpdateMoves(b: Board, s: State, draws: seq<Draw>)
    requires Invariant(b, s) && CanFeed(b, s, draws)
    requires !s.isGameOver && !s.isPaused && !Dies(b, s)
    ensures var r := Update(b, s, draws);
      !r.isGameOver && r.highScore == s.highScore &&
      r.snake[0] == Step(s.snake[0], s.direction) &&
      (NextHead(s) == s.food ==>
         r.snake[1..] == s.snake && r.score == s.score + FoodPoints &&
         r.food !in r.snake && InBoard(b, r.food)) &&
      (NextHead(s) != s.food ==>
         r.snake[1..] == s.snake[..|s.snake| - 1] && r.score == s.score && r.food == s.food)
  {
  }

  /** A live tick ends the game exactly when the candidate head is off the board or on
      the pre-move body. It then does what `gameOver` does: snake, food and score are left
      as they were and a beaten high score is raised to the score. */
  lemma UpdateEndsGame(b: Board, s: State, draws: seq<Draw>)
    requires Invariant(b, s) && CanFeed(b, s, draws)
    requires !s.isGameOver && !s.isPaused
    ensures var r := Update(b, s, draws);
      r.isGameOver <==> (!InBoard(b, NextHead(s)) || NextHead(s) in s.snake)
    ensures var r := Update(b, s, draws);
      r.isGameOver ==> r == GameOver(s) && r.snake == s.snake && r.food == s.food && r.score == s.score
  {
  }

  /** The snake grows by one cell, and the score by ten, exactly on the ticks that eat. */
  lemma GrowsIffEats(b: Board, s: State, draws: seq<Draw>)
    requires Invariant(b, s) && CanFeed(b, s, draws)
    ensures var r := Update(b, s, draws);
      (|r.snake| == |s.snake| + 1 <==> Eats(b, s)) &&
      (r.score == s.score + FoodPoints <==> Eats(b, s))
  {
  }

  /** Because the body is tested before the tail leaves, moving onto the cell the tail
      is about to vacate still ends the game. */
  lemma ChasingTheTailEndsGame(b: Board, s: State, draws: seq<Draw>)
    requires Invariant(b, s) && CanFeed(b, s, draws)
    requires !s.isGameOver && !s.isPaused
    requires NextHead(s) == s.snake[|s.snake| - 1]
    ensures Update(b, s, draws).isGameOver
  {
  }

  /** The reversal rule compares a request with the committed direction, not with the
      direction of the last move. So two requests between ticks, first a turn and then
      the reverse of the last move, are both accepted, and the next tick runs the head
      into the second segment and ends the game. */
  lemma ReversalByTwoRequests(b: Board, s: State, turn: Direction, draws: seq<Draw>)
    requires Invariant(b, s) && !s.isGameOver && !s.isPaused
    requires |s.snake| >= 2 && s.snake[0] == Step(s.snake[1], s.direction)
    requires AxisOf(turn) != AxisOf(s.direction)
    ensures var t := ChangeDirection(ChangeDirection(s, turn), Reverse(s.direction));
      t.direction == Reverse(s.direction) && CanFeed(b, t, draws) &&
      Update(b, t, draws).isGameOver
  {
    var t := ChangeDirection(ChangeDirection(s, turn), Reverse(s.direction));
    assert NextHead(t) == s.snake[1];
  }
}
