/** The game as the page runs it: the global variables become the fields of one
    object and each function of the game becomes a method that updates them in place. */
module SnakeGame {
  import opened Geometry
  import opened Directions
  import Rules
  import opened Invariants

  class Game {
    /** Canvas size and cell size; a resize is not part of this model. */
    const board: Board

    var score: int
    var highScore: int
    var snake: seq<Cell>
    var food: Cell
    var direction: Direction
    var isGameOver: bool
    var isPaused: bool

    /** The fields read as one value of the state machine. */
    function State(): Rules.State
      reads this
    {
      Rules.State(score, highScore, snake, food, direction, isGameOver, isPaused)
    }

    /** The game invariant, on a board where a new game can always be started. */
    ghost predicate Valid()
      reads this
    {
      Invariant(board, State()) && InBoard(board, Rules.StartCell)
    }

    /** Page load: the high score comes from storage, the canvas is laid out for a
        display of `size` pixels and the first game starts. */
    constructor (size: int, storedHighScore: int, draws: seq<Draw>)
      requires size >= CellsPerSide
      requires Rules.HasFreeDraw(Layout(size), [Rules.StartCell], draws)
      ensures board == Layout(size)
      ensures Valid()
      ensures State() == Rules.StartGame(board, storedHighScore, draws)
    {
      board := Layout(size);
      highScore := storedHighScore;
      new;
      LayoutHoldsStartCell(size);
      StartGame(draws);
    }

    /** `togglePause`. */
    method TogglePause()
      modifies this`isPaused
      ensures State() == Rules.TogglePause(old(State()))
      ensures old(Valid()) ==> Valid()
    {
      isPaused := !isPaused;
    }

    /** `changeDirection`: takes the request only if it changes axis or the snake is one cell. */
    method ChangeDirection(requested: Direction)
      modifies this`direction
      ensures State() == Rules.ChangeDirection(old(State()), requested)
      ensures old(Valid()) ==> Valid()
    {
      if Rules.Accepts(direction, requested, |snake|) {
        direction := requested;
      }
    }

    /** `startGame`: resets everything but the high score and places the food. */
    method StartGame(draws: seq<Draw>)
      requires WellFormed(board) && InBoard(board, Rules.StartCell)
      requires Rules.HasFreeDraw(board, [Rules.StartCell], draws)
      modifies this
      ensures Valid()
      ensures State() == Rules.StartGame(board, old(highScore), draws)
    {
      snake := [Rules.StartCell];
      direction := Rules.StartDirection;
      score := 0;
      isGameOver := false;
      isPaused := false;
      GenerateFood(draws);
      StartGameEstablishes(board, highScore, draws);
    }

    /** `generateFood`: draws cells until one is off the snake. Draw `i` of `draws`
        stands for the `i`-th pair of `Math.random` values. */
    method GenerateFood(draws: seq<Draw>)
      requires WellFormed(board) && Rules.HasFreeDraw(board, snake, draws)
      modifies this`food
      ensures food == Rules.GenerateFood(board, snake, draws)
      ensures InBoard(board, food) && food !in snake
      ensures old(Valid()) ==> Valid()
    {
      var i := 0;
      food := Pick(board, draws[0]);
      while food in snake
        invariant 0 <= i < |draws| && food == Pick(board, draws[i])
        invariant Rules.HasFreeDraw(board, snake, draws[i..])
        invariant Rules.GenerateFood(board, snake, draws[i..]) == Rules.GenerateFood(board, snake, draws)
        decreases |draws| - i
      {
        assert draws[i..][0] == draws[i];
        Rules.FreeDrawInTail(board, snake, draws[i..]);
        assert draws[i..][1..] == draws[i + 1..];
        i := i + 1;
        food := Pick(board, draws[i]);
      }
      assert draws[i..][0] == draws[i];
    }

    /** `gameOver`: the game stops and the high score is raised if it was beaten. */
    method GameOver()
      modifies this`isGameOver, this`highScore
      ensures State() == Rules.GameOver(old(State()))
      ensures old(Valid()) ==> Valid()
    {
      isGameOver := true;
      if score > highScore {
        highScore := score;
      }
    }

    /** `update`: one tick of the game loop. */
    method Update(draws: seq<Draw>)
      requires Valid() && Rules.CanFeed(board, State(), draws)
      modifies this
      ensures Valid()
      ensures State() == Rules.Update(board, old(State()), draws)
    {
      UpdatePreserves(board, State(), draws);
      if isGameOver || isPaused {
        return;
      }
      var head := Step(snake[0], direction);
      if OutOfBounds(board, head) || head in snake {
        GameOver();
        return;
      }
      snake := [head] + snake;
      if head == food {
        score := score + Rules.FoodPoints;
        GenerateFood(draws);
      } else {
        snake := snake[..|snake| - 1];
      }
    }
  }
}
