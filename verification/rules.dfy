/** The game's state machine as values: the global state of the game and
    one function per operation, each giving the state that operation leaves. */
module Rules {
  import opened Geometry
  import opened Directions

  /** The globals the game mutates, `score` through `isPaused`. */
  datatype State = State(
    score: int,
    highScore: int,
    snake: seq<Cell>,   // head first
    food: Cell,
    direction: Direction,
    isGameOver: bool,
    isPaused: bool)

  /** Each food eaten is worth this many points. */
  const FoodPoints: int := 10

  /** The single cell a new snake starts on. */
  const StartCell: Cell := Cell(10, 10)

  /** The direction a new game starts in. */
  const StartDirection: Direction := Right

  // ---------------------------------------------------------------------------
  // Food placement

  /** Some attempt among `draws` lands on a cell the snake does not cover. */
  predicate HasFreeDraw(b: Board, snake: seq<Cell>, draws: seq<Draw>)
    requires WellFormed(b)
  {
    exists k :: 0 <= k < |draws| && Pick(b, draws[k]) !in snake
  }

  /** Rejection sampling: the cell of the first attempt that misses the snake.
      `draws` stands for the successive values of `Math.random`; the loop
      only ends if one of them lands on a free cell. */
  function GenerateFood(b: Board, snake: seq<Cell>, draws: seq<Draw>): (food: Cell)
    requires WellFormed(b) && HasFreeDraw(b, snake, draws)
    ensures InBoard(b, food) && food !in snake
    decreases |draws|
  {
    var c := Pick(b, draws[0]);
    if c !in snake then c
    else
      FreeDrawInTail(b, snake, draws);
      GenerateFood(b, snake, draws[1..])
  }

  /** When the first attempt hits the snake, a later one still misses it. */
  lemma FreeDrawInTail(b: Board, snake: seq<Cell>, draws: seq<Draw>)
    requires WellFormed(b) && HasFreeDraw(b, snake, draws)
    requires Pick(b, draws[0]) in snake
    ensures HasFreeDraw(b, snake, draws[1..])
  {
    var k :| 0 <= k < |draws| && Pick(b, draws[k]) !in snake;
    assert draws[1..][k - 1] == draws[k];
  }

  /** The food is the pick of attempt `k` exactly when every earlier attempt hit the snake
      and attempt `k` did not. */
  lemma {:induction false} GenerateFoodIsFirstFree(b: Board, snake: seq<Cell>, draws: seq<Draw>, k: nat)
    requires WellFormed(b) && k < |draws|
    requires forall j :: 0 <= j < k ==> Pick(b, draws[j]) in snake
    requires Pick(b, draws[k]) !in snake
    ensures HasFreeDraw(b, snake, draws)
    ensures GenerateFood(b, snake, draws) == Pick(b, draws[k])
  {
    if k > 0 {
      assert Pick(b, draws[0]) in snake;
      forall j | 0 <= j < k - 1
        ensures Pick(b, draws[1..][j]) in snake
      {
        assert draws[1..][j] == draws[j + 1];
      }
      assert draws[1..][k - 1] == draws[k];
      GenerateFoodIsFirstFree(b, snake, draws[1..], k - 1);
    }
  }

  // ---------------------------------------------------------------------------
  // Operations

  /** `togglePause`: flips the pause flag and nothing else. */
  function TogglePause(s: State): (r: State)
    ensures r.isPaused != s.isPaused
    ensures r.(isPaused := s.isPaused) == s
  {
    s.(isPaused := !s.isPaused)
  }

  /** Pausing twice resumes the game exactly as it was. */
  lemma TogglePauseTwice(s: State)
    ensures TogglePause(TogglePause(s)) == s
  {
  }

  /** The rule that decides whether a requested direction is taken: it must
      change axis, unless the snake is a single cell. */
  predicate Accepts(current: Direction, requested: Direction, length: int)
    ensures length == 1 ==> Accepts(current, requested, length)
    ensures requested != current && requested != Reverse(current) ==> Accepts(current, requested, length)
    ensures length != 1 && Accepts(current, requested, length) ==> requested != Reverse(current)
  {
    AxisOf(requested) != AxisOf(current) || length == 1
  }

  /** `changeDirection`: the requested direction replaces the committed one when
      `Accepts` holds, otherwise the request is ignored. Neither the pause nor the
      game-over flag blocks it. */
  function ChangeDirection(s: State, requested: Direction): (r: State)
    ensures r.(direction := s.direction) == s
    ensures r.direction == s.direction || r.direction == requested
    ensures AxisOf(requested) != AxisOf(s.direction) ==> r.direction == requested
    ensures |s.snake| == 1 ==> r.direction == requested
    ensures AxisOf(requested) == AxisOf(s.direction) && |s.snake| != 1 ==> r == s
    ensures |s.snake| != 1 ==> r.direction != Reverse(s.direction)
  {
    if Accepts(s.direction, requested, |s.snake|) then s.(direction := requested) else s
  }

  /** `gameOver`: sets the game-over flag and raises the high score to the
      score if, and only if, the score is strictly greater. */
  function GameOver(s: State): (r: State)
    ensures r.isGameOver
    ensures r.(isGameOver := s.isGameOver, highScore := s.highScore) == s
    ensures r.highScore >= s.highScore && r.highScore >= s.score
    ensures r.highScore == s.highScore || r.highScore == s.score
    ensures r.highScore != s.highScore <==> s.score > s.highScore
  {
    var high := if s.score > s.highScore then s.score else s.highScore;
    s.(isGameOver := true, highScore := high)
  }

  /** `startGame`: a one-cell snake at the start cell heading right, score 0,
      both flags cleared, fresh food; only the high score is carried over. */
  function StartGame(b: Board, highScore: int, draws: seq<Draw>): (r: State)
    requires WellFormed(b) && HasFreeDraw(b, [StartCell], draws)
    ensures r.snake == [StartCell] && r.direction == StartDirection
    ensures r.score == 0 && r.highScore == highScore
    ensures !r.isGameOver && !r.isPaused
    ensures InBoard(b, r.food) && r.food != StartCell
  {
    State(0, highScore, [StartCell], GenerateFood(b, [StartCell], draws), StartDirection, false, false)
  }

  /** The cell the head moves to on the next tick: a neighbour of the head, never
      the head itself, so a tick always moves the snake. */
  function NextHead(s: State): (head: Cell)
    requires s.snake != []
    ensures Adjacent(s.snake[0], head) && head != s.snake[0]
  {
    Step(s.snake[0], s.direction)
  }

  /** The tick ends the game: the candidate head leaves the board or lands on
      any cell of the body as it is before the move, the tail included. */
  predicate Dies(b: Board, s: State)
    requires WellFormed(b) && s.snake != []
    ensures Dies(b, s) <==> !InBoard(b, NextHead(s)) || NextHead(s) in s.snake
    ensures NextHead(s) == s.snake[|s.snake| - 1] ==> Dies(b, s)
  {
    OutOfBounds(b, NextHead(s)) || NextHead(s) in s.snake
  }

  /** The tick is live and its move lands on the food. */
  predicate Eats(b: Board, s: State)
    requires WellFormed(b) && s.snake != []
  {
    !s.isGameOver && !s.isPaused && !Dies(b, s) && NextHead(s) == s.food
  }

  /** What the tick needs of the random draws: if it eats, new food can be placed
      off the grown snake. */
  predicate CanFeed(b: Board, s: State, draws: seq<Draw>)
    requires WellFormed(b) && s.snake != []
  {
    Eats(b, s) ==> HasFreeDraw(b, [NextHead(s)] + s.snake, draws)
  }

  /** `update`, one tick of the game loop. Frozen while over or paused; otherwise the
      candidate head is checked against the board and the pre-move body, and the snake
      either grows onto the food (10 points, new food) or moves, losing its tail. */
  function Update(b: Board, s: State, draws: seq<Draw>): (r: State)
    requires WellFormed(b) && s.snake != [] && CanFeed(b, s, draws)
    ensures r.direction == s.direction && r.isPaused == s.isPaused
    ensures s.isGameOver || s.isPaused ==> r == s
    ensures r.score == s.score || r.score == s.score + FoodPoints
    ensures r.score == s.score + FoodPoints <==> |r.snake| == |s.snake| + 1
    ensures |r.snake| == |s.snake| || |r.snake| == |s.snake| + 1
    ensures r.highScore == s.highScore || r.highScore == s.score
    ensures r.highScore != s.highScore <==>
              !s.isGameOver && !s.isPaused && r.isGameOver && s.score > s.highScore
  {
    if s.isGameOver || s.isPaused then s
    else
      var head := NextHead(s);
      if Dies(b, s) then GameOver(s)
      else if head == s.food then
        var grown := [head] + s.snake;
        s.(snake := grown, score := s.score + FoodPoints, food := GenerateFood(b, grown, draws))
      else
        s.(snake := [head] + s.snake[..|s.snake| - 1])
  }
}
