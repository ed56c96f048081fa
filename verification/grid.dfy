/** Integer grid cells, the four unit directions, and the shape predicates of a snake body. */
module Grid {

  /** A grid cell, or a step between two cells (the engine's two-component integer vector). */
  datatype Cell = Cell(x: int, y: int)

  function Add(a: Cell, b: Cell): Cell { Cell(a.x + b.x, a.y + b.y) }

  function Sub(a: Cell, b: Cell): Cell { Cell(a.x - b.x, a.y - b.y) }

  /** Steps a and b point in exactly opposite directions. */
  predicate Reverses(a: Cell, b: Cell) { a.x == -b.x && a.y == -b.y }

  const Up: Cell := Cell(0, 1)
  const Down: Cell := Cell(0, -1)
  const Left: Cell := Cell(-1, 0)
  const Right: Cell := Cell(1, 0)

  predicate IsVertical(d: Cell) { d == Up || d == Down }

  predicate IsHorizontal(d: Cell) { d == Left || d == Right }

  predicate IsUnit(d: Cell) { IsVertical(d) || IsHorizontal(d) }

  /** Board settings: gridWidth, gridHeight, and the wall tilemap reduced to the set of cells
      whose world position holds a wall tile (an absent tilemap is the empty set). */
  datatype Board = Board(width: int, height: int, walls: set<Cell>)

  predicate InGrid(b: Board, c: Cell) { 0 <= c.x < b.width && 0 <= c.y < b.height }

  /** Halving with the source language's integer division, which truncates toward zero. */
  function HalfTowardZero(n: int): (r: int)
    ensures n >= 0 ==> 0 <= n - 2 * r <= 1
    ensures n < 0 ==> -1 <= n - 2 * r <= 0
  {
    if n >= 0 then n / 2 else -((-n) / 2)
  }

  /** The step from cell i + 1 of s to cell i (toward the head). */
  function Gap(s: seq<Cell>, i: int): Cell
    requires 0 <= i && i + 1 < |s|
  {
    Sub(s[i], s[i + 1])
  }

  /** Cells i and i + 2 of s coincide: the body doubles straight back at i + 1. */
  predicate Folds(s: seq<Cell>, i: int)
    requires 0 <= i && i + 2 < |s|
  {
    s[i] == s[i + 2]
  }

  /** Consecutive cells are orthogonal neighbours. */
  predicate Chain(s: seq<Cell>)
  {
    forall i :: 0 <= i < |s| - 1 ==> IsUnit(Gap(s, i))
  }

  /** The body never doubles straight back: cells two apart differ. */
  predicate NoFold(s: seq<Cell>)
  {
    forall i :: 0 <= i < |s| - 2 ==> !Folds(s, i)
  }
}
