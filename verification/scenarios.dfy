/** Plays that exhibit what the rules do and do not promise: the first step of a new game, a
    crash into the edge, a crash into the tail cell, growth that leaves the board or lands on
    the head, a reversal spread over two frames, and two opposite corners drawn alike. Most are
    stated on the default open board of 7 by 7 cells, for every row or position where the play
    fits. */
module Scenarios {
  import opened Grid
  import opened Sprites
  import opened Rules

  /** A new game on the default board lays the body out from the centre cell (3, 3). */
  lemma StartsAtCentre()
    ensures StartSnake(Board(7, 7, {})) == [Cell(3, 3), Cell(2, 3), Cell(1, 3)]
  {
  }

  /** With no key pressed, a snake lying straight along a row and heading right moves every
      cell one place right and keeps its food. */
  lemma FirstStep(y: int, food: Cell)
    requires 0 <= y < 7 && InGrid(Board(7, 7, {}), food) && food.y != y
    ensures var s := State([Cell(3, y), Cell(2, y), Cell(1, y)], Right, food, false);
      && Inv(Board(7, 7, {}), s)
      && Tick(Board(7, 7, {}), s, {}, true, []) == s.(snake := [Cell(4, y), Cell(3, y), Cell(2, y)])
  {
  }

  /** Heading right from the last column ends the game and leaves body and food where they were. */
  lemma EdgeEndsGame(y: int, food: Cell)
    requires 0 <= y < 7 && InGrid(Board(7, 7, {}), food) && food.y != y
    ensures var s := State([Cell(6, y), Cell(5, y), Cell(4, y)], Right, food, false);
      && Inv(Board(7, 7, {}), s)
      && Move(Board(7, 7, {}), s, []) == s.(over := true)
  {
  }

  /** Stepping into the cell the tail is about to leave still counts as hitting the body: a
      body coiled into a square, head beside its tail, ends the game on its next step. */
  lemma TailCellEndsGame(x: int, y: int, food: Cell)
    requires 0 <= x < 6 && 0 <= y < 6
    requires InGrid(Board(7, 7, {}), food) && (food.x > x + 1 || food.y > y + 1)
    ensures var s := State([Cell(x, y), Cell(x + 1, y), Cell(x + 1, y + 1), Cell(x, y + 1)], Up, food, false);
      && Inv(Board(7, 7, {}), s) && NextHead(s) == s.snake[3]
      && Move(Board(7, 7, {}), s, []) == s.(over := true)
  {
  }

  /** With a single draw, food placement keeps it exactly when it is vacant. */
  lemma SingleDraw(b: Board, snake: seq<Cell>, c: Cell)
    requires Vacant(b, snake, c)
    ensures HasVacant(b, snake, [c]) && FirstVacant(b, snake, [c]) == 0
  {
    assert [c][0] == c;
  }

  /** A body bent against the left edge whose head is about to eat the cell below it. */
  lemma BentAtEdge(y: int)
    requires 0 <= y < 6
    ensures var s := State([Cell(1, y + 1), Cell(0, y + 1), Cell(0, y)], Down, Cell(1, y), false);
      && Inv(Board(7, 7, {}), s) && Eats(Board(7, 7, {}), s)
      && Grow(Advance(s.snake, NextHead(s))) == [Cell(1, y), Cell(1, y + 1), Cell(0, y + 1), Cell(-1, y + 1)]
  {
  }

  /** The cell growth appends is not checked: eating along the left edge with the tail bent
      toward it puts the new last cell off the board, though the invariant still holds. */
  lemma GrowthCanLeaveGrid(y: int, c: Cell)
    requires 0 <= y < 6 && InGrid(Board(7, 7, {}), c) && c.x > 1
    ensures var s := State([Cell(1, y + 1), Cell(0, y + 1), Cell(0, y)], Down, Cell(1, y), false);
      && Inv(Board(7, 7, {}), s) && Feeds(Board(7, 7, {}), s, [c])
      && var r := Move(Board(7, 7, {}), s, [c]);
      && Inv(Board(7, 7, {}), r)
      && r.snake == [Cell(1, y), Cell(1, y + 1), Cell(0, y + 1), Cell(-1, y + 1)]
      && !InGrid(Board(7, 7, {}), r.snake[3])
  {
    var s := State([Cell(1, y + 1), Cell(0, y + 1), Cell(0, y)], Down, Cell(1, y), false);
    BentAtEdge(y);
    SingleDraw(Board(7, 7, {}), Grow(Advance(s.snake, NextHead(s))), c);
    MoveInv(Board(7, 7, {}), s, [c]);
  }

  /** A body coiled around one cell whose head is about to eat the cell it coils around. */
  lemma CoiledShape(x: int, y: int)
    requires 0 <= x < 5 && 0 <= y < 5
    ensures var s := State([Cell(x + 2, y + 2), Cell(x + 1, y + 2), Cell(x, y + 2), Cell(x, y + 1),
                            Cell(x + 1, y + 1), Cell(x + 1, y)], Down, Cell(x + 2, y + 1), false);
      Inv(Board(7, 7, {}), s) && Eats(Board(7, 7, {}), s)
  {
  }

  /** Growing that coiled body appends the cell its head has just entered. */
  lemma CoiledGrows(x: int, y: int)
    ensures var snake := [Cell(x + 2, y + 2), Cell(x + 1, y + 2), Cell(x, y + 2), Cell(x, y + 1),
                          Cell(x + 1, y + 1), Cell(x + 1, y)];
      Grow(Advance(snake, Cell(x + 2, y + 1)))
      == [Cell(x + 2, y + 1), Cell(x + 2, y + 2), Cell(x + 1, y + 2), Cell(x, y + 2),
          Cell(x, y + 1), Cell(x + 1, y + 1), Cell(x + 2, y + 1)]
  {
  }

  /** Nor is it checked against the body: here, in a body coiled around one cell, the appended
      cell is the new head's own cell, so the grown body holds one cell twice. */
  lemma GrowthCanOverlap(x: int, y: int, c: Cell)
    requires 0 <= x < 5 && 0 <= y < 5 && InGrid(Board(7, 7, {}), c) && (c.x > x + 2 || c.y > y + 2)
    ensures var s := State([Cell(x + 2, y + 2), Cell(x + 1, y + 2), Cell(x, y + 2), Cell(x, y + 1),
                            Cell(x + 1, y + 1), Cell(x + 1, y)], Down, Cell(x + 2, y + 1), false);
      && Inv(Board(7, 7, {}), s) && Feeds(Board(7, 7, {}), s, [c])
      && var r := Move(Board(7, 7, {}), s, [c]);
      && Inv(Board(7, 7, {}), r)
      && |r.snake| == 7 && r.snake[0] == r.snake[6] == Cell(x + 2, y + 1)
  {
    var s := State([Cell(x + 2, y + 2), Cell(x + 1, y + 2), Cell(x, y + 2), Cell(x, y + 1),
                    Cell(x + 1, y + 1), Cell(x + 1, y)], Down, Cell(x + 2, y + 1), false);
    CoiledShape(x, y);
    CoiledGrows(x, y);
    assert NextHead(s) == Cell(x + 2, y + 1);
    SingleDraw(Board(7, 7, {}), Grow(Advance(s.snake, NextHead(s))), c);
    MoveInv(Board(7, 7, {}), s, [c]);
  }

  /** The reverse check compares against the direction of the last frame, not of the last step:
      pressing Up in one frame and Left in the next, before the snake moves, turns any running
      snake heading right with its neck just left of its head straight back into the neck, which
      ends the game. */
  lemma TwoFramesCanReverse(b: Board, s: State)
    requires !s.over && s.dir == Right && 2 <= |s.snake| && s.snake[1] == Sub(s.snake[0], Right)
    ensures TickFeeds(b, s, {W}, false, [])
    ensures var s1 := Tick(b, s, {W}, false, []);
      && s1 == s.(dir := Up)
      && TickFeeds(b, s1, {A}, true, [])
      && Tick(b, s1, {A}, true, []) == s.(dir := Left, over := true)
  {
    assert Steer(Right, {W}) == Up;
    var s1 := s.(dir := Up);
    assert Tick(b, s, {W}, false, []) == s1;
    assert Steer(Up, {A}) == Left;
    var s2 := s.(dir := Left);
    assert NextHead(s2) == s.snake[1];
    assert Feeds(b, s2, []);
    BlockedStepFreezes(b, s2, []);
  }

  /** A turn piece is given the same pose for a step up followed by a step right as for a step
      right followed by a step up. So a corner whose neighbours lie up and left of it and a
      corner whose neighbours lie right and below it are drawn alike, although the two share no
      side: whatever the turn art, at least one of the two is drawn with an arm off its
      neighbours. */
  lemma OppositeCornersAlike(x: int, y: int, prior: int)
    ensures var bent := [Cell(x, y + 1), Cell(x, y), Cell(x - 1, y)];
      var other := [Cell(x + 1, y), Cell(x, y), Cell(x, y - 1)];
      && Sub(bent[0], bent[1]) == Up && Sub(bent[2], bent[1]) == Left
      && Sub(other[0], other[1]) == Right && Sub(other[2], other[1]) == Down
      && SegmentPose(bent, 1, prior) == SegmentPose(other, 1, prior) == Pose(TurnSprite, 0, false, false)
  {
    TurnPoseSymmetric(Up, Right, prior);
  }
}
