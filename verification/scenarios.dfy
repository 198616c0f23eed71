/** Concrete runs of the state machine on the board of a 400-pixel display
    (20 by 20 cells of 20 pixels). */
module Scenarios {
  import opened Geometry
  import opened Directions
  import opened Rules

  /** A new game with food placed five cells to the right of the head: four ticks
      move the single cell, the fifth eats, so the snake is two cells long and the
      score is 10. The first attempt to place the next food lands on the new head and
      is rejected; the second lands on (0,0). */
  lemma {:induction false} FiveTicksEatOnce()
    ensures var b := Layout(400);
      HasFreeDraw(b, [StartCell], [Draw(0.75, 0.5)]) &&
      var s0 := StartGame(b, 0, [Draw(0.75, 0.5)]);
      s0.food == Cell(15, 10) &&
      var s4 := Update(b, Update(b, Update(b, Update(b, s0, []), []), []), []);
      s4.snake == [Cell(14, 10)] &&
      HasFreeDraw(b, [Cell(15, 10), Cell(14, 10)], [Draw(0.75, 0.5), Draw(0.0, 0.0)]) &&
      var s5 := Update(b, s4, [Draw(0.75, 0.5), Draw(0.0, 0.0)]);
      s5.snake == [Cell(15, 10), Cell(14, 10)] && s5.score == 10 && s5.food == Cell(0, 0)
  {
    var b := Layout(400);
    assert b == Board(400, 400, 20);
    assert Pick(b, Draw(0.75, 0.5)) == Cell(15, 10);
    assert Pick(b, Draw(0.0, 0.0)) == Cell(0, 0);
    assert [Draw(0.75, 0.5)][0] == Draw(0.75, 0.5);
    var s0 := StartGame(b, 0, [Draw(0.75, 0.5)]);
    assert s0.food == Cell(15, 10);
    assert NextHead(s0) == Cell(11, 10) && InBoard(b, Cell(11, 10));
    var s1 := Update(b, s0, []);
    assert s1.snake == [Cell(11, 10)];
    assert NextHead(s1) == Cell(12, 10) && InBoard(b, Cell(12, 10));
    var s2 := Update(b, s1, []);
    assert s2.snake == [Cell(12, 10)];
    assert NextHead(s2) == Cell(13, 10) && InBoard(b, Cell(13, 10));
    var s3 := Update(b, s2, []);
    assert s3.snake == [Cell(13, 10)];
    assert NextHead(s3) == Cell(14, 10) && InBoard(b, Cell(14, 10));
    var s4 := Update(b, s3, []);
    assert s4.snake == [Cell(14, 10)];
    assert NextHead(s4) == Cell(15, 10) && InBoard(b, Cell(15, 10));
    var draws := [Draw(0.75, 0.5), Draw(0.0, 0.0)];
    GenerateFoodIsFirstFree(b, [Cell(15, 10), Cell(14, 10)], draws, 1);
  }

  /** A single-cell snake heading right may turn straight round: a request for
      left is accepted. */
  lemma SingleCellMayReverse(s: State)
    requires s.snake == [Cell(0, 5)] && s.direction == Right
    ensures ChangeDirection(s, Left).direction == Left
  {
  }

  /** Moving left from the left edge ends the game, keeps the score and raises the
      high score when it is beaten. */
  lemma LeavingTheLeftEdge(b: Board, s: State)
    requires WellFormed(b) && s.snake == [Cell(0, 5)] && s.direction == Left
    requires !s.isGameOver && !s.isPaused && s.score == 30 && s.highScore == 20
    ensures var r := Update(b, s, []);
      r.isGameOver && r.score == 30 && r.highScore == 30 && r.snake == s.snake
  {
  }
}
