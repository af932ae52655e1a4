/** Games played through the contracts of `SnakeGame.Game` alone: what a
    caller can conclude about concrete runs. */
module Scenarios {
  import opened Board
  import opened SnakeGame

  /** A new game on a 20-tile board, then one step to the right. The first
      random draw hits the snake and is rejected. */
  method StartThenSlide()
  {
    var g := new Game(20, Cell(0, 0));
    var draws := [Cell(10, 10), Cell(3, 4)];
    assert draws[1] !in [StartCell];
    g.StartGame(draws);
    assert g.snake == [Cell(10, 10)] && g.vx == 1 && g.vy == 0 && g.score == 0;
    assert g.food == Cell(3, 4);
    assert g.speedHalves == 14;
    g.UpdateGame([]);
    assert g.running && g.snake == [Cell(11, 10)] && g.score == 0;
  }

  /** Eating grows the snake by the new head and adds one point. */
  method StartThenEat()
  {
    var g := new Game(20, Cell(0, 0));
    var first := [Cell(11, 10)];
    assert first[0] !in [StartCell];
    g.StartGame(first);
    var next := [Cell(11, 10), Cell(10, 10), Cell(5, 5)];
    assert next[2] !in [g.food] + g.snake;
    g.UpdateGame(next);
    assert g.running && g.snake == [Cell(11, 10), Cell(10, 10)];
    assert g.score == 1 && g.food == Cell(5, 5) && g.speedHalves == 14;
  }

  /** On an 11-tile board the first step to the right leaves the board: the
      game ends, the snake stays where it was, and a later tick does nothing. */
  method WallEndsGame()
  {
    var g := new Game(11, Cell(0, 0));
    var draws := [Cell(0, 0)];
    assert draws[0] !in [StartCell];
    g.StartGame(draws);
    g.UpdateGame([]);
    assert !g.running && !g.loopActive && g.snake == [Cell(10, 10)];
    g.UpdateGame([]);
    assert !g.running && g.snake == [Cell(10, 10)];
  }

  /** A refused reversal, and arrows ignored once the game is over. */
  method ReversalRefused()
  {
    var g := new Game(11, Cell(0, 0));
    var draws := [Cell(0, 0)];
    assert draws[0] !in [StartCell];
    g.StartGame(draws);
    g.KeyDown(ArrowLeft, []);
    assert g.vx == 1 && g.vy == 0;
    g.KeyDown(ArrowUp, []);
    assert g.vx == 0 && g.vy == -1;
    g.UpdateGame([]);
    assert g.snake == [Cell(10, 9)];
    g.Turn(Right);
    g.UpdateGame([]);
    assert !g.running;
    g.KeyDown(ArrowDown, []);
    assert g.vx == 1 && g.vy == 0;
  }

  /** Restarting after a game over starts afresh, except for the speed. */
  method RestartKeepsSpeed()
  {
    var g := new Game(11, Cell(0, 0));
    var draws := [Cell(0, 0)];
    assert draws[0] !in [StartCell];
    g.StartGame(draws);
    g.UpdateGame([]);
    var again := [Cell(2, 2)];
    assert again[0] !in [StartCell];
    g.KeyDown(Space, again);
    assert g.running && g.snake == [Cell(10, 10)] && g.score == 0;
    assert g.food == Cell(2, 2) && g.speedHalves == 14;
  }

  /** Food laid out straight ahead: the fifth food raises the speed by half a
      tick per second, the first four do not. */
  method FifthFoodBoosts()
  {
    var g := new Game(20, Cell(0, 0));
    var draws := [Cell(11, 10)];
    assert draws[0] !in [StartCell];
    g.StartGame(draws);
    var x := 11;
    while x < 16
      invariant 11 <= x <= 16
      invariant g.Valid() && g.running && g.vx == 1 && g.vy == 0 && g.tileCount == 20
      invariant g.score == x - 11 && |g.snake| == x - 10 && g.speedHalves == 14 + (if x == 16 then 1 else 0)
      invariant g.snake[0] == Cell(x - 1, 10) && g.food == Cell(x, 10)
      invariant forall i :: 0 <= i < |g.snake| ==> g.snake[i].x < x
      modifies g
    {
      var more := [Cell(x + 1, 10)];
      assert more[0] !in [g.food] + g.snake;
      g.UpdateGame(more);
      x := x + 1;
    }
    assert g.score == 5 && g.speedHalves == 15 && g.running && |g.snake| == 6;
  }
}
