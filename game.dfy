/** The state machine of game.js: the snake, its velocity, the food, the
    score, the speed and the running flag, and the operations that drive
    them (start, tick, game over, direction changes). */
module SnakeGame {
  import opened Board

  /** The four directions of the arrow keys and the on-screen buttons. */
  datatype Direction = Up | Down | Left | Right

  /** The keys the keyboard handler reacts to; every other key is `Other`. */
  datatype Key = ArrowUp | ArrowDown | ArrowLeft | ArrowRight | Space | Other

  /** The velocity a direction asks for. */
  function Delta(d: Direction): (int, int)
  {
    match d
    case Up => (0, -1)
    case Down => (0, 1)
    case Left => (-1, 0)
    case Right => (1, 0)
  }

  /** A velocity of one step along one axis. */
  predicate IsUnit(vx: int, vy: int)
  {
    (vx, vy) in {(0, -1), (0, 1), (-1, 0), (1, 0)}
  }

  /** The reversal guard shared by the keyboard and the buttons: each
      direction is refused when one component of the current velocity shows
      the opposite heading. The result is either the requested velocity or
      the current one, and never the negation of a non-zero current velocity;
      for a unit velocity the request is refused exactly when it is the
      reversal. */
  function Steer(vx: int, vy: int, d: Direction): (r: (int, int))
    ensures r == Delta(d) || r == (vx, vy)
    ensures r == (-vx, -vy) ==> vx == 0 && vy == 0
    ensures IsUnit(vx, vy) ==> (r == Delta(d) <==> Delta(d) != (-vx, -vy))
  {
    match d
    case Up => if vy != 1 then (0, -1) else (vx, vy)
    case Down => if vy != -1 then (0, 1) else (vx, vy)
    case Left => if vx != 1 then (-1, 0) else (vx, vy)
    case Right => if vx != -1 then (1, 0) else (vx, vy)
  }

  /** The guard looks only at the velocity of the moment: two requests between
      two ticks can turn a snake heading right into one heading left. */
  lemma TwoTurnsMayReverse()
    ensures var v := Steer(1, 0, Up); Steer(v.0, v.1, Left) == (-1, 0)
  {
  }

  /** The self-collision scan skips the head; with a unit velocity the new
      head can never be the old head, so the scan finds exactly the cells of
      the whole snake. */
  lemma SkippingHeadIsHarmless(snake: seq<Cell>, vx: int, vy: int)
    requires |snake| >= 1 && IsUnit(vx, vy)
    ensures HitsBody(snake, Shift(snake[0], vx, vy)) <==> Shift(snake[0], vx, vy) in snake
  {
  }

  /** Number of speed boosts while the score climbs from 0 to `score`, one
      food at a time, with a boost each time the new score is a multiple
      of 5. */
  function Boosts(score: nat): nat
  {
    if score == 0 then 0
    else Boosts(score - 1) + (if score % 5 == 0 then 1 else 0)
  }

  /** The per-food modulo test boosts the speed once per five points. */
  lemma {:induction false} BoostsIsFifth(score: nat)
    ensures Boosts(score) == score / 5
  {
    if score > 0 {
      BoostsIsFifth(score - 1);
    }
  }

  /** What one tick will do from a given state. */
  datatype TickKind = Idle | HitWall | HitSelf | Slide | Grow

  /** The cell every new game starts from. */
  const StartCell := Cell(10, 10)

  /** The initial speed, 7 ticks per second, in half-ticks per second. */
  const InitialSpeedHalves := 14

  class Game {
    /** Tiles per side of the board. */
    const tileCount: int
    var snake: seq<Cell>
    var vx: int
    var vy: int
    var food: Cell
    var score: nat
    /** The speed in half-ticks per second: `speed` is `speedHalves / 2`. */
    var speedHalves: int
    var running: bool
    /** A tick timer is scheduled. */
    var loopActive: bool
    /** The speed when the current game was started. */
    ghost var startSpeedHalves: int

    ghost predicate Valid()
      reads this
    {
      && tileCount > 10
      && |snake| >= 1
      && AllInBounds(snake, tileCount)
      && Distinct(snake)
      && InBounds(food, tileCount)
      && (running ==> food !in snake)
      && (IsUnit(vx, vy) || (vx == 0 && vy == 0 && !running))
      && loopActive == running
      && speedHalves == startSpeedHalves + Boosts(score)
    }

    /** Where the head goes on the next tick. */
    function NextHead(): Cell
      reads this
      requires |snake| >= 1
    {
      Shift(snake[0], vx, vy)
    }

    /** The branch of `UpdateGame` the current state takes. */
    function NextTick(): TickKind
      reads this
      requires |snake| >= 1
    {
      if !running then Idle
      else if !InBounds(NextHead(), tileCount) then HitWall
      else if HitsBody(snake, NextHead()) then HitSelf
      else if NextHead() == food then Grow
      else Slide
    }

    /** The state before any game: one segment at the start cell, no motion,
        a random food cell, score 0, speed 7. */
    constructor (tileCount: int, initialFood: Cell)
      requires tileCount > 10 && InBounds(initialFood, tileCount)
      ensures Valid()
      ensures this.tileCount == tileCount
      ensures snake == [StartCell] && vx == 0 && vy == 0 && food == initialFood
      ensures score == 0 && speedHalves == InitialSpeedHalves
      ensures !running && !loopActive
    {
      this.tileCount := tileCount;
      snake := [StartCell];
      vx, vy := 0, 0;
      food := initialFood;
      score := 0;
      speedHalves := InitialSpeedHalves;
      running := false;
      loopActive := false;
      startSpeedHalves := InitialSpeedHalves;
    }

    /** Places the food on the first random draw that misses the snake. It
        runs in the middle of other operations, so it needs no invariant. */
    method GenerateFood(draws: seq<Cell>)
      requires AllInBounds(draws, tileCount)
      requires HasFreeDraw(draws, snake)
      modifies this`food
      ensures IsFirstFree(draws, snake, food)
      ensures food !in snake && InBounds(food, tileCount)
    {
      var cell, tries := FindFreeCell(snake, draws);
      food := cell;
    }

    /** Starts or restarts a game. The speed is not reset. */
    method StartGame(draws: seq<Cell>)
      requires Valid() && AllInBounds(draws, tileCount)
      requires HasFreeDraw(draws, [StartCell])
      modifies this
      ensures Valid()
      ensures running && loopActive
      ensures snake == [StartCell] && vx == 1 && vy == 0 && score == 0
      ensures IsFirstFree(draws, [StartCell], food) && food != StartCell
      ensures speedHalves == old(speedHalves)
    {
      running := true;
      snake := [StartCell];
      vx, vy := 1, 0;
      score := 0;
      startSpeedHalves := speedHalves;
      GenerateFood(draws);
      loopActive := true;
    }

    /** Ends the game: stops the flag and the timer, keeps everything else. */
    method GameOver()
      requires Valid()
      modifies this
      ensures Valid()
      ensures !running && !loopActive
      ensures snake == old(snake) && food == old(food) && score == old(score)
      ensures vx == old(vx) && vy == old(vy) && speedHalves == old(speedHalves)
    {
      running := false;
      loopActive := false;
    }

    /** One tick of the game loop. The draws are only consulted when the
        snake eats. */
    method UpdateGame(draws: seq<Cell>)
      requires Valid() && AllInBounds(draws, tileCount)
      requires NextTick() == Grow ==> HasFreeDraw(draws, [food] + snake)
      modifies this
      ensures Valid()
      ensures old(NextTick()) == Idle ==> unchanged(this)
      ensures old(NextTick()) in {HitWall, HitSelf} ==>
        && !running && !loopActive
        && snake == old(snake) && food == old(food) && score == old(score)
        && vx == old(vx) && vy == old(vy) && speedHalves == old(speedHalves)
      ensures old(NextTick()) == Slide ==>
        && running && loopActive
        && snake == [old(NextHead())] + old(snake)[..|old(snake)| - 1]
        && food == old(food) && score == old(score)
        && vx == old(vx) && vy == old(vy) && speedHalves == old(speedHalves)
      ensures old(NextTick()) == Grow ==>
        && running && loopActive
        && snake == [old(NextHead())] + old(snake)
        && score == old(score) + 1
        && IsFirstFree(draws, snake, food)
        && vx == old(vx) && vy == old(vy)
        && speedHalves == old(speedHalves) + (if score % 5 == 0 then 1 else 0)
    {
      if !running {
        return;
      }
      var head := Shift(snake[0], vx, vy);
      if head.x < 0 || head.x >= tileCount || head.y < 0 || head.y >= tileCount {
        GameOver();
        return;
      }
      var hit := HitsOwnBody(snake, head);
      if hit {
        GameOver();
        return;
      }
      if head == food {
        GrowKeepsDistinct(snake, head);
        snake := [head] + snake;
        score := score + 1;
        GenerateFood(draws);
        if score % 5 == 0 {
          speedHalves := speedHalves + 1;
        }
      } else {
        SlideKeepsDistinct(snake, head);
        snake := [head] + snake[..|snake| - 1];
      }
    }

    /** A direction request from the keyboard or a button: applied through
        the reversal guard, and only while a game runs. */
    method Turn(d: Direction)
      requires Valid()
      modifies this`vx, this`vy
      ensures Valid()
      ensures old(running) ==> (vx, vy) == Steer(old(vx), old(vy), d)
      ensures old(running) ==> (vx, vy) != (-old(vx), -old(vy))
      ensures !old(running) ==> vx == old(vx) && vy == old(vy)
    {
      if running {
        var v := Steer(vx, vy, d);
        vx, vy := v.0, v.1;
      }
    }

    /** The keyboard handler: space starts a game when none runs, arrows
        steer while one runs, everything else is ignored. */
    method KeyDown(key: Key, draws: seq<Cell>)
      requires Valid() && AllInBounds(draws, tileCount)
      requires key == Space && !running ==> HasFreeDraw(draws, [StartCell])
      modifies this
      ensures Valid()
      ensures key == Space && !old(running) ==>
        && running && snake == [StartCell] && vx == 1 && vy == 0 && score == 0
        && IsFirstFree(draws, [StartCell], food) && speedHalves == old(speedHalves)
      ensures key in {ArrowUp, ArrowDown, ArrowLeft, ArrowRight} ==>
        && snake == old(snake) && food == old(food) && score == old(score)
        && running == old(running) && speedHalves == old(speedHalves)
        && (old(running) ==> (vx, vy) == Steer(old(vx), old(vy), KeyDirection(key)))
        && (!old(running) ==> vx == old(vx) && vy == old(vy))
      ensures (key == Other || (key == Space && old(running))) ==> unchanged(this)
    {
      if key == Space && !running {
        StartGame(draws);
        return;
      }
      if !running {
        return;
      }
      match key
      case ArrowUp => Turn(Up);
      case ArrowDown => Turn(Down);
      case ArrowLeft => Turn(Left);
      case ArrowRight => Turn(Right);
      case _ =>
    }
  }

  /** The direction an arrow key stands for. */
  function KeyDirection(key: Key): Direction
    requires key in {ArrowUp, ArrowDown, ArrowLeft, ArrowRight}
  {
    match key
    case ArrowUp => Up
    case ArrowDown => Down
    case ArrowLeft => Left
    case ArrowRight => Right
  }
}
