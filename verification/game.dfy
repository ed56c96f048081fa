/** The game manager object: its fields are updated in place by the frame loop, and every
    method is proved against the pure rules. */
module Game {
  import opened Grid
  import opened Sprites
  import opened Rules

  class SnakeGameManager {
    /** Grid size and wall layer, fixed for the object's lifetime. */
    const board: Board
    /** One segment object per body cell: its transform's cell and its renderer's pose. */
    var snakeSegments: seq<Segment>
    /** The body cells, head first. */
    var snakePositions: seq<Cell>
    var direction: Cell
    var foodPosition: Cell
    var isGameOver: bool

    /** The game state as a value. */
    function Snapshot(): State
      reads this
    {
      State(snakePositions, direction, foodPosition, isGameOver)
    }

    /** The snapshot invariant holds and every segment is drawn as its cell demands. */
    ghost predicate Valid()
      reads this
    {
      Inv(board, Snapshot()) && snakeSegments == Render(snakePositions)
    }

    /** Creating the object starts the first game. */
    constructor (board: Board, draws: seq<Cell>)
      requires WithinGrid(board, draws) && HasVacant(board, StartSnake(board), draws)
      ensures this.board == board
      ensures Valid() && Snapshot() == StartState(board, draws)
    {
      this.board := board;
      snakeSegments := [];
      snakePositions := [];
      direction := Right;
      foodPosition := Cell(0, 0);
      isGameOver := false;
      new;
      StartNewGame(draws);
    }

    /** One frame: after game over only the restart key does anything; otherwise input is
        read, then the snake moves when the movement timer fires. */
    method Update(pressed: set<Key>, timerFires: bool, draws: seq<Cell>)
      requires Valid() && WithinGrid(board, draws)
      requires TickFeeds(board, Snapshot(), pressed, timerFires, draws)
      modifies this
      ensures Valid() && Snapshot() == Tick(board, old(Snapshot()), pressed, timerFires, draws)
    {
      if isGameOver {
        if R in pressed {
          StartNewGame(draws);
        }
        return;
      }
      HandleInput(pressed);
      SteerNeverReverses(old(direction), pressed);
      if timerFires {
        MoveSnake(draws);
      }
    }

    /** Reads the pressed keys into the direction. */
    method HandleInput(pressed: set<Key>)
      modifies this`direction
      ensures direction == Steer(old(direction), pressed)
    {
      direction := Steer(direction, pressed);
    }

    /** Clears the board and lays out a new three-cell snake at the centre facing right, then
        places food. */
    method StartNewGame(draws: seq<Cell>)
      requires WithinGrid(board, draws) && HasVacant(board, StartSnake(board), draws)
      modifies this
      ensures Valid() && Snapshot() == StartState(board, draws)
    {
      snakeSegments := [];
      snakePositions := [];
      isGameOver := false;
      direction := Right;

      var startPos := Cell(HalfTowardZero(board.width), HalfTowardZero(board.height));
      snakePositions := snakePositions + [startPos];
      snakeSegments := snakeSegments + [Segment(startPos, Fresh)];

      for i := 1 to 3
        invariant |snakePositions| == |snakeSegments| == i
        invariant forall j :: 0 <= j < i ==> snakePositions[j] == Cell(startPos.x - j, startPos.y)
        invariant forall j :: 0 <= j < i ==> snakeSegments[j] == Segment(snakePositions[j], Fresh)
        invariant direction == Right && !isGameOver
      {
        var pos := Sub(startPos, Cell(i, 0));
        snakePositions := snakePositions + [pos];
        snakeSegments := snakeSegments + [Segment(pos, Fresh)];
      }
      assert snakePositions == StartSnake(board);
      StartInv(board, draws);
      assert Chain(snakePositions) && NoFold(snakePositions);

      RenderedAfterUpdate(snakePositions, snakeSegments);
      UpdateSnakeSprites();
      SpawnFood(draws);
    }

    /** One movement step: the new head is checked against the board's bounds, the whole body
        and the walls, in that order; a collision ends the game and changes nothing else.
        Otherwise the head is inserted, the tail removed, the segments follow, and on food the
        snake grows and new food is placed. */
    method MoveSnake(draws: seq<Cell>)
      requires Valid() && WithinGrid(board, draws) && Feeds(board, Snapshot(), draws)
      modifies this`snakeSegments, this`snakePositions, this`foodPosition, this`isGameOver
      ensures Valid() && Snapshot() == Move(board, old(Snapshot()), draws)
    {
      var newHeadPos := Add(snakePositions[0], direction);

      if !(0 <= newHeadPos.x < board.width && 0 <= newHeadPos.y < board.height) {
        GameOver();
        return;
      }
      if newHeadPos in snakePositions {
        GameOver();
        return;
      }
      if newHeadPos in board.walls {
        GameOver();
        return;
      }

      ghost var s0 := Snapshot();
      MoveInv(board, s0, draws);
      ghost var moved := Advance(snakePositions, newHeadPos);
      ghost var before := snakeSegments;

      snakePositions := [newHeadPos] + snakePositions;
      snakePositions := snakePositions[..|snakePositions| - 1];
      assert snakePositions == moved;

      var i := 0;
      while i < |snakeSegments|
        invariant snakePositions == moved && foodPosition == s0.food && isGameOver == s0.over
        invariant 0 <= i <= |snakeSegments| == |before| == |snakePositions|
        invariant forall j :: 0 <= j < i ==> snakeSegments[j] == Segment(snakePositions[j], before[j].pose)
        invariant forall j :: i <= j < |snakeSegments| ==> snakeSegments[j] == before[j]
      {
        snakeSegments := snakeSegments[i := snakeSegments[i].(cell := snakePositions[i])];
        i := i + 1;
      }
      assert forall j :: 0 <= j < |snakePositions| ==> snakeSegments[j].cell == snakePositions[j];

      if newHeadPos == foodPosition {
        ghost var followed := snakeSegments;
        AddSegment();
        assert forall j :: 0 <= j < |snakePositions| ==> snakeSegments[j].cell == snakePositions[j] by {
          assert forall j :: 0 <= j < |followed| ==> snakeSegments[j] == followed[j];
        }
        SpawnFood(draws);
        assert Snapshot() == Move(board, s0, draws);
      } else {
        assert Snapshot() == Move(board, s0, draws);
      }
      assert Inv(board, Snapshot());

      RenderedAfterUpdate(snakePositions, snakeSegments);
      UpdateSnakeSprites();
    }

    /** Appends one segment beyond the tail, continuing the last step of the body. */
    method AddSegment()
      requires 2 <= |snakePositions|
      modifies this`snakeSegments, this`snakePositions
      ensures snakePositions == Grow(old(snakePositions))
      ensures snakeSegments == old(snakeSegments) + [Segment(Extension(old(snakePositions)), Fresh)]
    {
      var n := |snakePositions|;
      var tailDir := Sub(snakePositions[n - 2], snakePositions[n - 1]);
      var newPos := Sub(snakePositions[n - 1], tailDir);
      snakeSegments := snakeSegments + [Segment(newPos, Fresh)];
      snakePositions := snakePositions + [newPos];
    }

    /** Draws cells until one is neither on the snake nor a wall, and puts the food there. */
    method SpawnFood(draws: seq<Cell>)
      requires HasVacant(board, snakePositions, draws)
      modifies this`foodPosition
      ensures foodPosition == draws[FirstVacant(board, snakePositions, draws)]
    {
      var k := 0;
      var newFoodPos := draws[0];
      while newFoodPos in snakePositions || newFoodPos in board.walls
        invariant 0 <= k <= FirstVacant(board, snakePositions, draws)
        invariant newFoodPos == draws[k]
        decreases FirstVacant(board, snakePositions, draws) - k
      {
        k := k + 1;
        newFoodPos := draws[k];
      }
      foodPosition := newFoodPos;
    }

    /** Gives every segment its sprite, rotation and mirroring from its neighbours. The
        rotation a segment held before is passed on, since an unmatched turn keeps it. */
    method UpdateSnakeSprites()
      requires 2 <= |snakePositions| && |snakeSegments| == |snakePositions|
      modifies this`snakeSegments
      ensures snakeSegments == Reposed(snakePositions, old(snakeSegments))
    {
      ghost var before := snakeSegments;
      var i := 0;
      while i < |snakeSegments|
        invariant 0 <= i <= |snakeSegments| == |snakePositions| == |before|
        invariant snakeSegments[..i] == Reposed(snakePositions, before)[..i]
        invariant snakeSegments[i..] == before[i..]
      {
        var segment := snakeSegments[i];
        assert segment == before[i] by {
          assert snakeSegments[i..][0] == before[i..][0];
        }
        snakeSegments := snakeSegments[i := Segment(segment.cell, SegmentPose(snakePositions, i, segment.pose.angle))];
        i := i + 1;
      }
      assert snakeSegments == snakeSegments[..i];
    }

    /** Ends the game. */
    method GameOver()
      modifies this`isGameOver
      ensures isGameOver
    {
      isGameOver := true;
    }
  }
}
