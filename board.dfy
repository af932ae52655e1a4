/** The grid the snake lives on: cells, the collision and membership scans
    of game.js, and the rejection sampling that places the food. */
module Board {

  /** A tile of the grid, `{ x, y }` in game.js. */
  datatype Cell = Cell(x: int, y: int)

  /** The cell one step from `c` along the velocity `(vx, vy)`. */
  function Shift(c: Cell, vx: int, vy: int): Cell
  {
    Cell(c.x + vx, c.y + vy)
  }

  /** The cell lies on the `n` by `n` board: the negation of the wall test. */
  predicate InBounds(c: Cell, n: int)
  {
    0 <= c.x < n && 0 <= c.y < n
  }

  predicate AllInBounds(cells: seq<Cell>, n: int)
  {
    forall i :: 0 <= i < |cells| ==> InBounds(cells[i], n)
  }

  /** No two segments occupy the same cell. */
  predicate Distinct(cells: seq<Cell>)
  {
    forall i, j :: 0 <= i < j < |cells| ==> cells[i] != cells[j]
  }

  /** `c` equals a segment other than the head; the tail counts. */
  predicate HitsBody(snake: seq<Cell>, c: Cell)
  {
    exists i :: 1 <= i < |snake| && snake[i] == c
  }

  /** Some random draw lands on a cell that `occupied` does not cover. */
  predicate HasFreeDraw(draws: seq<Cell>, occupied: seq<Cell>)
  {
    exists i :: 0 <= i < |draws| && draws[i] !in occupied
  }

  /** `c` is the first of the draws that `occupied` does not cover: what
      rejection sampling over that stream of draws settles on. */
  predicate IsFirstFree(draws: seq<Cell>, occupied: seq<Cell>, c: Cell)
  {
    exists k :: 0 <= k < |draws| && draws[k] == c && c !in occupied &&
      forall j :: 0 <= j < k ==> draws[j] in occupied
  }

  /** The self-collision scan: every index but 0 is compared with the new
      head, so the tail (about to be dropped) is compared too. */
  method HitsOwnBody(snake: seq<Cell>, head: Cell) returns (hit: bool)
    ensures hit <==> HitsBody(snake, head)
  {
    for i := 0 to |snake|
      invariant forall j :: 1 <= j < i ==> snake[j] != head
    {
      if i != 0 && snake[i] == head {
        return true;
      }
    }
    return false;
  }

  /** The inner scan of the food sampler: is `c` one of the segments? */
  method IsOnSnake(snake: seq<Cell>, c: Cell) returns (found: bool)
    ensures found <==> c in snake
  {
    found := false;
    for i := 0 to |snake|
      invariant forall j :: 0 <= j < i ==> snake[j] != c
    {
      if snake[i] == c {
        found := true;
        break;
      }
    }
  }

  /** The do-while of the food sampler. `draws` stands for the successive
      random cells; the loop takes them in order and stops at the first one
      that is not on the snake. `tries` is the number of rejected draws. */
  method FindFreeCell(snake: seq<Cell>, draws: seq<Cell>) returns (cell: Cell, tries: nat)
    requires HasFreeDraw(draws, snake)
    ensures tries < |draws| && cell == draws[tries]
    ensures cell !in snake
    ensures forall j :: 0 <= j < tries ==> draws[j] in snake
  {
    ghost var w :| 0 <= w < |draws| && draws[w] !in snake;
    tries := 0;
    cell := draws[0];
    var foodOnSnake := IsOnSnake(snake, cell);
    while foodOnSnake
      invariant 0 <= tries <= w
      invariant cell == draws[tries]
      invariant foodOnSnake <==> cell in snake
      invariant forall j :: 0 <= j < tries ==> draws[j] in snake
      decreases w - tries
    {
      tries := tries + 1;
      cell := draws[tries];
      foodOnSnake := IsOnSnake(snake, cell);
    }
  }

  /** Rejection sampling is deterministic given the draws: at most one cell
      is the first free draw. */
  lemma FirstFreeUnique(draws: seq<Cell>, occupied: seq<Cell>, a: Cell, b: Cell)
    requires IsFirstFree(draws, occupied, a) && IsFirstFree(draws, occupied, b)
    ensures a == b
  {
  }

  /** A move without food: the new head is pushed and the tail dropped. If the
      head moved off its cell and the new head is on no later segment, the
      segments stay pairwise distinct. */
  lemma SlideKeepsDistinct(snake: seq<Cell>, head: Cell)
    requires |snake| >= 1 && Distinct(snake)
    requires head != snake[0] && !HitsBody(snake, head)
    ensures Distinct([head] + snake[..|snake| - 1])
  {
  }

  /** A move onto food: the head is pushed and nothing dropped. A head that
      is on no segment keeps the segments pairwise distinct. */
  lemma GrowKeepsDistinct(snake: seq<Cell>, head: Cell)
    requires Distinct(snake) && head !in snake
    ensures Distinct([head] + snake)
  {
  }
}
