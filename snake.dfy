/**
 * The Snake engine of the games arcade: a 15 x 15 grid, a head-first body,
 * one food cell, a direction vector, a score, a game-over flag and a pause
 * flag. The 150 ms game-loop interval is the Tick event; the random food
 * cell is Tick's parameter.
 */
module Snake {

  const GridSize: int := 15

  /** A grid cell or a direction vector, `{x, y}` in the source. */
  datatype Point = Point(x: int, y: int)

  const Up := Point(0, -1)
  const Down := Point(0, 1)
  const Left := Point(-1, 0)
  const Right := Point(1, 0)

  function Add(p: Point, d: Point): Point
  {
    Point(p.x + d.x, p.y + d.y)
  }

  function Reverse(d: Point): Point
  {
    Point(-d.x, -d.y)
  }

  predicate InGrid(p: Point)
  {
    0 <= p.x < GridSize && 0 <= p.y < GridSize
  }

  predicate IsUnit(d: Point)
  {
    d == Up || d == Down || d == Left || d == Right
  }

  /** The keys the keyboard handler looks at; every other key is OtherKey. */
  datatype Key = ArrowUp | ArrowDown | ArrowLeft | ArrowRight | OtherKey

  function ArrowVector(k: Key): Point
    requires !k.OtherKey?
  {
    match k
    case ArrowUp => Up
    case ArrowDown => Down
    case ArrowLeft => Left
    case ArrowRight => Right
  }

  /**
   * The keyboard handler: an arrow key installs its direction unless that
   * would reverse the current one; other keys change nothing.
   */
  function KeyDirection(dir: Point, key: Key): (d: Point)
    ensures d == dir || (!key.OtherKey? && d == ArrowVector(key))
  {
    match key
    case ArrowUp => if dir.y != 1 then Up else dir
    case ArrowDown => if dir.y != -1 then Down else dir
    case ArrowLeft => if dir.x != 1 then Left else dir
    case ArrowRight => if dir.x != -1 then Right else dir
    case OtherKey => dir
  }

  /**
   * With a unit direction, a key press keeps it a unit direction, never
   * installs the exact reverse, and installs the arrow's direction exactly
   * when that direction is not the reverse of the current one.
   */
  lemma KeyNeverReverses(dir: Point, key: Key)
    requires IsUnit(dir)
    ensures IsUnit(KeyDirection(dir, key)) && KeyDirection(dir, key) != Reverse(dir)
    ensures !key.OtherKey? ==>
              (KeyDirection(dir, key) == ArrowVector(key) <==> ArrowVector(key) != Reverse(dir))
  {
  }

  /** Every segment is on the grid and no two segments share a cell. */
  ghost predicate WellFormed(body: seq<Point>)
  {
    && |body| > 0
    && (forall i :: 0 <= i < |body| ==> InGrid(body[i]))
    && (forall i, j :: 0 <= i < j < |body| ==> body[i] != body[j])
  }

  /** What one game-loop step does to the body. */
  datatype Step = Crash | Moved(body: seq<Point>, ate: bool)

  /**
   * The updater the game loop hands to `setSnake`: the new head is the old
   * head plus the direction. A head off the grid or on any current segment
   * (the tail about to move included) is a crash. Otherwise the head is
   * prepended and every old segment moves one place back; the last one
   * drops off unless the head is on the food.
   */
  function Advance(curr: seq<Point>, dir: Point, food: Point): (r: Step)
    requires |curr| > 0
    ensures r.Crash? <==> !InGrid(Add(curr[0], dir)) || Add(curr[0], dir) in curr
    ensures r.Moved? ==>
              && r.ate == (Add(curr[0], dir) == food)
              && |r.body| == |curr| + (if r.ate then 1 else 0)
              && r.body[0] == Add(curr[0], dir)
              && forall i :: 1 <= i < |r.body| ==> r.body[i] == curr[i - 1]
  {
    var head := Add(curr[0], dir);
    if !InGrid(head) || head in curr then Crash
    else
      var newSnake := [head] + curr;
      if head == food then Moved(newSnake, true)
      else Moved(newSnake[..|newSnake| - 1], false)
  }

  /** A step that does not crash keeps the body on the grid and free of overlaps. */
  lemma AdvanceKeepsWellFormed(curr: seq<Point>, dir: Point, food: Point)
    requires WellFormed(curr)
    ensures Advance(curr, dir, food).Moved? ==> WellFormed(Advance(curr, dir, food).body)
  {
  }

  class SnakeGame {
    var snake: seq<Point>
    var food: Point
    var dir: Point
    var gameOver: bool
    var score: nat
    var paused: bool

    /**
     * The body is on the grid without overlaps, the food is on the grid,
     * the direction is one of the four unit vectors and the score counts
     * the segments grown since the start.
     */
    ghost predicate Valid()
      reads this
    {
      WellFormed(snake) && InGrid(food) && IsUnit(dir) && |snake| == score + 1
    }

    /** The initial state: paused, one segment at (7, 7), food at (5, 5), moving up. */
    constructor ()
      ensures Valid()
      ensures snake == [Point(7, 7)] && food == Point(5, 5) && dir == Up
      ensures !gameOver && score == 0 && paused
    {
      snake := [Point(7, 7)];
      food := Point(5, 5);
      dir := Up;
      gameOver := false;
      score := 0;
      paused := true;
    }

    /**
     * One 150 ms game-loop step. No loop runs while paused or after the
     * game is over. A crash ends the game and leaves the body as it was;
     * eating scores a point and moves the food to (fx, fy), which may be a
     * cell of the snake.
     */
    method Tick(fx: int, fy: int)
      requires Valid()
      requires 0 <= fx < GridSize && 0 <= fy < GridSize
      modifies this
      ensures Valid()
      ensures dir == old(dir) && paused == old(paused)
      ensures old(paused || gameOver) ==>
                snake == old(snake) && food == old(food) && score == old(score) && gameOver == old(gameOver)
      ensures !old(paused || gameOver) ==>
                match Advance(old(snake), old(dir), old(food))
                case Crash =>
                  gameOver && snake == old(snake) && food == old(food) && score == old(score)
                case Moved(body, ate) =>
                  && !gameOver && snake == body
                  && score == old(score) + (if ate then 1 else 0)
                  && food == (if ate then Point(fx, fy) else old(food))
    {
      if paused || gameOver {
        return;
      }
      AdvanceKeepsWellFormed(snake, dir, food);
      var step := Advance(snake, dir, food);
      match step
      case Crash =>
        gameOver := true;
      case Moved(body, ate) =>
        if ate {
          score := score + 1;
          food := Point(fx, fy);
        }
        snake := body;
    }

    /** An arrow key pressed on the keyboard; the reversal guard applies. */
    method PressKey(k: Key)
      requires Valid()
      modifies this
      ensures Valid()
      ensures dir == KeyDirection(old(dir), k)
      ensures snake == old(snake) && food == old(food) && score == old(score)
      ensures gameOver == old(gameOver) && paused == old(paused)
    {
      KeyNeverReverses(dir, k);
      dir := KeyDirection(dir, k);
    }

    /** An on-screen arrow button: sets the direction with no reversal guard. */
    method PressButton(k: Key)
      requires Valid()
      requires !k.OtherKey?
      modifies this
      ensures Valid()
      ensures dir == ArrowVector(k)
      ensures snake == old(snake) && food == old(food) && score == old(score)
      ensures gameOver == old(gameOver) && paused == old(paused)
    {
      dir := ArrowVector(k);
    }

    /** The Start / Restart / Try Again button: the initial state, running. */
    method Restart()
      modifies this
      ensures Valid()
      ensures snake == [Point(7, 7)] && food == Point(5, 5) && dir == Up
      ensures !gameOver && score == 0 && !paused
    {
      snake := [Point(7, 7)];
      food := Point(5, 5);
      dir := Up;
      gameOver := false;
      score := 0;
      paused := false;
    }

    /** The Pause button. */
    method Pause()
      requires Valid()
      modifies this
      ensures Valid() && paused
      ensures snake == old(snake) && food == old(food) && dir == old(dir)
      ensures score == old(score) && gameOver == old(gameOver)
    {
      paused := true;
    }
  }

  /**
   * From the start, one tick moves the head from (7, 7) to (7, 6). Growing
   * to two segments and then pressing the opposite on-screen button makes
   * the next tick a crash, while the same arrow key is refused.
   */
  method ReversalScenario()
  {
    var g := new SnakeGame();
    g.Restart();
    g.Tick(0, 0);
    assert g.snake == [Point(7, 6)] && !g.gameOver;
    g.PressKey(ArrowLeft);
    g.Tick(0, 0);
    g.Tick(0, 0);
    assert g.snake == [Point(5, 6)];
    g.PressKey(ArrowUp);
    g.Tick(0, 0);
    assert g.snake == [Point(5, 5), Point(5, 6)] && g.score == 1;
    g.PressKey(ArrowDown);
    assert g.dir == Up;
    g.PressButton(ArrowDown);
    g.Tick(0, 0);
    assert g.gameOver && g.snake == [Point(5, 5), Point(5, 6)];
  }

  /**
   * The keyboard guard compares with the pending direction only: moving
   * up, Left then Down inside one tick turns the snake around, and a
   * two-segment snake runs into its own neck.
   */
  method TwoKeyReversalScenario()
  {
    var g := new SnakeGame();
    g.Restart();
    g.Tick(0, 0);
    g.PressKey(ArrowLeft);
    g.Tick(0, 0);
    g.Tick(0, 0);
    g.PressKey(ArrowUp);
    g.Tick(0, 0);
    assert g.snake == [Point(5, 5), Point(5, 6)] && g.dir == Up && !g.gameOver;
    g.PressKey(ArrowLeft);
    g.PressKey(ArrowDown);
    assert g.dir == Down;
    g.Tick(0, 0);
    assert g.gameOver && g.snake == [Point(5, 5), Point(5, 6)];
  }
}
