/** The rules of the game as pure functions over a snapshot of the game state: steering from
    the pressed keys, the start position, one movement step with its collision checks, growth on
    food, food placement from a sequence of random draws, and one frame of the update loop. */
module Rules {
  import opened Grid
  import opened Sprites

  /** The keys the game reacts to: W/S/A/D and the arrow keys steer, R restarts. */
  datatype Key = W | UpArrow | S | DownArrow | A | LeftArrow | D | RightArrow | R

  /** One of the two keys that ask for direction d was pressed this frame. */
  predicate Requested(pressed: set<Key>, d: Cell)
  {
    if d == Up then W in pressed || UpArrow in pressed
    else if d == Down then S in pressed || DownArrow in pressed
    else if d == Left then A in pressed || LeftArrow in pressed
    else if d == Right then D in pressed || RightArrow in pressed
    else false
  }

  /** Direction d is asked for and is not the exact reverse of the current direction. */
  predicate Allowed(pressed: set<Key>, current: Cell, d: Cell)
  {
    Requested(pressed, d) && !Reverses(current, d)
  }

  /** The direction after one frame of input: it changes only to a direction that was asked
      for and is not the reverse of the current one. */
  function Steer(current: Cell, pressed: set<Key>): (d: Cell)
    ensures d == current || Allowed(pressed, current, d)
  {
    if (W in pressed || UpArrow in pressed) && current != Down then Up
    else if (S in pressed || DownArrow in pressed) && current != Up then Down
    else if (A in pressed || LeftArrow in pressed) && current != Right then Left
    else if (D in pressed || RightArrow in pressed) && current != Left then Right
    else current
  }

  /** Reference rule for steering: among the allowed directions the first in the order Up,
      Down, Left, Right wins; when none is allowed the direction stays. */
  function FirstAllowed(pressed: set<Key>, current: Cell): Cell
  {
    if Allowed(pressed, current, Up) then Up
    else if Allowed(pressed, current, Down) then Down
    else if Allowed(pressed, current, Left) then Left
    else if Allowed(pressed, current, Right) then Right
    else current
  }

  /** The input step follows the reference rule. */
  lemma SteerPriority(current: Cell, pressed: set<Key>)
    ensures Steer(current, pressed) == FirstAllowed(pressed, current)
  {
    if (W in pressed || UpArrow in pressed) && current != Down {
      assert Allowed(pressed, current, Up);
    } else if (S in pressed || DownArrow in pressed) && current != Up {
      assert !Allowed(pressed, current, Up) && Allowed(pressed, current, Down);
    } else if (A in pressed || LeftArrow in pressed) && current != Right {
      assert !Allowed(pressed, current, Up) && !Allowed(pressed, current, Down);
      assert Allowed(pressed, current, Left);
    } else if (D in pressed || RightArrow in pressed) && current != Left {
      assert !Allowed(pressed, current, Up) && !Allowed(pressed, current, Down);
      assert !Allowed(pressed, current, Left) && Allowed(pressed, current, Right);
    } else {
      assert !Allowed(pressed, current, Up) && !Allowed(pressed, current, Down);
      assert !Allowed(pressed, current, Left) && !Allowed(pressed, current, Right);
    }
  }

  /** One frame of input keeps a unit direction a unit direction and never turns it to its
      exact reverse. */
  lemma SteerNeverReverses(current: Cell, pressed: set<Key>)
    ensures IsUnit(current) ==> IsUnit(Steer(current, pressed)) && !Reverses(Steer(current, pressed), current)
  {
    if current == Up {
      assert Steer(current, pressed) in {Up, Left, Right};
    } else if current == Down {
      assert Steer(current, pressed) in {Down, Left, Right};
    } else if current == Left {
      assert Steer(current, pressed) in {Up, Down, Left};
    } else if current == Right {
      assert Steer(current, pressed) in {Up, Down, Right};
    }
  }

  /** A snapshot of the game: the body cells (head first), the direction, the food cell and
      whether the game is over. */
  datatype State = State(snake: seq<Cell>, dir: Cell, food: Cell, over: bool)

  /** Every random draw lies on the board, as the engine's range sampling guarantees. */
  predicate WithinGrid(b: Board, draws: seq<Cell>)
  {
    forall k :: 0 <= k < |draws| ==> InGrid(b, draws[k])
  }

  /** A cell food may occupy: not on the snake and not a wall. */
  predicate Vacant(b: Board, snake: seq<Cell>, c: Cell)
  {
    c !in snake && c !in b.walls
  }

  /** The draws eventually hit a vacant cell, so food placement terminates. */
  predicate HasVacant(b: Board, snake: seq<Cell>, draws: seq<Cell>)
  {
    exists k :: 0 <= k < |draws| && Vacant(b, snake, draws[k])
  }

  /** The index of the draw that food placement keeps: the first vacant one. */
  function FirstVacant(b: Board, snake: seq<Cell>, draws: seq<Cell>): (k: nat)
    requires HasVacant(b, snake, draws)
    ensures k < |draws| && Vacant(b, snake, draws[k])
    ensures forall j :: 0 <= j < k ==> !Vacant(b, snake, draws[j])
    decreases |draws|
  {
    if Vacant(b, snake, draws[0]) then 0
    else
      assert HasVacant(b, snake, draws[1..]) by {
        var k :| 0 <= k < |draws| && Vacant(b, snake, draws[k]);
        assert k != 0 && draws[1..][k - 1] == draws[k];
      }
      1 + FirstVacant(b, snake, draws[1..])
  }

  /** The body a new game starts with: the centre cell and the two cells to its left. */
  function StartSnake(b: Board): (r: seq<Cell>)
    ensures |r| == 3
    ensures forall i :: 0 <= i < 3 ==> r[i] == Cell(HalfTowardZero(b.width) - i, HalfTowardZero(b.height))
  {
    var c := Cell(HalfTowardZero(b.width), HalfTowardZero(b.height));
    [c, Sub(c, Cell(1, 0)), Sub(c, Cell(2, 0))]
  }

  /** A new game: a three-cell body at the centre facing right, not over, food on the first
      vacant draw. */
  function StartState(b: Board, draws: seq<Cell>): (r: State)
    requires HasVacant(b, StartSnake(b), draws)
    ensures |r.snake| == 3 && r.dir == Right && !r.over
    ensures r.snake[0] == Cell(HalfTowardZero(b.width), HalfTowardZero(b.height))
    ensures Sub(r.snake[0], r.snake[1]) == Right && Sub(r.snake[1], r.snake[2]) == Right
    ensures r.food in draws && Vacant(b, r.snake, r.food)
  {
    var snake := StartSnake(b);
    State(snake, Right, draws[FirstVacant(b, snake, draws)], false)
  }

  /** The cell the head moves into. */
  function NextHead(s: State): Cell
    requires 1 <= |s.snake|
  {
    Add(s.snake[0], s.dir)
  }

  /** A move into cell h ends the game: off the board, onto any body cell (the tail cell that
      is about to be vacated included), or onto a wall. */
  predicate Blocked(b: Board, snake: seq<Cell>, h: Cell)
  {
    !InGrid(b, h) || h in snake || h in b.walls
  }

  /** The body after the head enters h and the tail cell is dropped. */
  function Advance(snake: seq<Cell>, h: Cell): (r: seq<Cell>)
    requires 1 <= |snake|
    ensures |r| == |snake| && r[0] == h
    ensures forall i :: 1 <= i < |r| ==> r[i] == snake[i - 1]
  {
    [h] + snake[..|snake| - 1]
  }

  /** The cell growth appends: one more step beyond the tail, continuing the direction from
      the second-to-last cell to the last. */
  function Extension(snake: seq<Cell>): (c: Cell)
    requires 2 <= |snake|
    ensures Sub(c, snake[|snake| - 1]) == Sub(snake[|snake| - 1], snake[|snake| - 2])
    ensures IsUnit(Sub(snake[|snake| - 2], snake[|snake| - 1])) ==>
              IsUnit(Sub(snake[|snake| - 1], c)) && c != snake[|snake| - 2]
  {
    var tailDir := Sub(snake[|snake| - 2], snake[|snake| - 1]);
    Sub(snake[|snake| - 1], tailDir)
  }

  /** The body with one cell appended that continues its last step straight on. */
  function Grow(snake: seq<Cell>): (r: seq<Cell>)
    requires 2 <= |snake|
    ensures |r| == |snake| + 1 && r[..|snake|] == snake
    ensures Sub(r[|snake|], r[|snake| - 1]) == Sub(r[|snake| - 1], r[|snake| - 2])
  {
    snake + [Extension(snake)]
  }

  /** The next move is not blocked and enters the food cell. */
  predicate Eats(b: Board, s: State)
    requires 1 <= |s.snake|
  {
    !Blocked(b, s.snake, NextHead(s)) && NextHead(s) == s.food
  }

  /** A move from s can be taken: the body has at least two cells, and if the move eats, the
      draws hold a cell vacant for the grown body. */
  predicate Feeds(b: Board, s: State, draws: seq<Cell>)
  {
    2 <= |s.snake| &&
    (Eats(b, s) ==> HasVacant(b, Grow(Advance(s.snake, NextHead(s))), draws))
  }

  /** One movement step. */
  function Move(b: Board, s: State, draws: seq<Cell>): (r: State)
    requires Feeds(b, s, draws)
    ensures r.dir == s.dir
    ensures r.over == (s.over || Blocked(b, s.snake, NextHead(s)))
    ensures |r.snake| == |s.snake| + (if Eats(b, s) then 1 else 0)
  {
    var h := NextHead(s);
    if Blocked(b, s.snake, h) then
      s.(over := true)
    else
      var moved := Advance(s.snake, h);
      if h == s.food then
        var grown := Grow(moved);
        s.(snake := grown, food := draws[FirstVacant(b, grown, draws)])
      else
        s.(snake := moved)
  }

  /** A blocked move sets game over and changes nothing else. */
  lemma BlockedStepFreezes(b: Board, s: State, draws: seq<Cell>)
    requires Feeds(b, s, draws) && Blocked(b, s.snake, NextHead(s))
    ensures Move(b, s, draws) == s.(over := true)
  {
  }

  /** A move that neither collides nor eats: the head enters the new cell, every other cell
      moves up one place, the length stays, the food stays, and the old tail cell remains
      occupied only if it also occurred earlier in the body. */
  lemma PlainStep(b: Board, s: State, draws: seq<Cell>)
    requires Feeds(b, s, draws) && !Blocked(b, s.snake, NextHead(s)) && NextHead(s) != s.food
    ensures var r := Move(b, s, draws); var n := |s.snake|;
      && |r.snake| == n
      && r.snake[0] == NextHead(s)
      && (forall i :: 1 <= i < n ==> r.snake[i] == s.snake[i - 1])
      && r.food == s.food && r.dir == s.dir && r.over == s.over
      && (s.snake[n - 1] in r.snake <==> s.snake[n - 1] in s.snake[..n - 1])
  {
    var n := |s.snake|;
    var r := Move(b, s, draws);
    assert r.snake == [NextHead(s)] + s.snake[..n - 1];
    if s.snake[n - 1] in r.snake {
      assert s.snake[n - 1] != NextHead(s);
    }
  }

  /** A move onto the food: the body grows by exactly one cell, the front of it is the
      advanced body, the new last cell continues the tail straight on (so it is an orthogonal
      neighbour of the tail whenever the body's last two cells are), and fresh food lies off
      the grown body, away from the cell just eaten. */
  lemma EatingStep(b: Board, s: State, draws: seq<Cell>)
    requires Feeds(b, s, draws) && Eats(b, s)
    ensures var r := Move(b, s, draws); var n := |s.snake|;
      && |r.snake| == n + 1
      && r.snake[..n] == Advance(s.snake, NextHead(s))
      && Sub(r.snake[n], r.snake[n - 1]) == Sub(r.snake[n - 1], r.snake[n - 2])
      && (IsUnit(Sub(r.snake[n - 2], r.snake[n - 1])) ==> IsUnit(Sub(r.snake[n - 1], r.snake[n])))
      && Vacant(b, r.snake, r.food) && r.food != s.food
  {
    var r := Move(b, s, draws);
    assert r.snake[0] == s.food;
  }

  /** The snapshot invariant of a running or finished game: at least three cells, consecutive
      cells orthogonal neighbours, no straight fold-back, a unit direction, the head on the
      board, and the food on the board and vacant. */
  predicate Inv(b: Board, s: State)
  {
    && 3 <= |s.snake|
    && Chain(s.snake)
    && NoFold(s.snake)
    && IsUnit(s.dir)
    && InGrid(b, s.snake[0])
    && InGrid(b, s.food)
    && Vacant(b, s.snake, s.food)
  }

  /** A step into a neighbouring cell off the body keeps orthogonal neighbours and no fold-back. */
  lemma AdvanceKeepsShape(snake: seq<Cell>, h: Cell)
    requires 2 <= |snake| && Chain(snake) && NoFold(snake)
    requires IsUnit(Sub(h, snake[0])) && h !in snake
    ensures Chain(Advance(snake, h)) && NoFold(Advance(snake, h))
  {
    var r := Advance(snake, h);
    forall i | 0 <= i < |r| - 1
      ensures IsUnit(Gap(r, i))
    {
      if i > 0 {
        assert r[i] == snake[i - 1] && r[i + 1] == snake[i];
        assert IsUnit(Gap(snake, i - 1));
      }
    }
    forall i | 0 <= i < |r| - 2
      ensures !Folds(r, i)
    {
      if i == 0 {
        assert r[2] == snake[1];
      } else {
        assert r[i] == snake[i - 1] && r[i + 2] == snake[i + 1];
        assert !Folds(snake, i - 1);
      }
    }
  }

  /** Growth keeps orthogonal neighbours and no fold-back. */
  lemma GrowKeepsShape(snake: seq<Cell>)
    requires 2 <= |snake| && Chain(snake) && NoFold(snake)
    ensures Chain(Grow(snake)) && NoFold(Grow(snake))
  {
    var r := Grow(snake);
    var n := |snake|;
    assert IsUnit(Gap(snake, n - 2));
    forall i | 0 <= i < |r| - 1
      ensures IsUnit(Gap(r, i))
    {
      if i < n - 1 {
        assert r[i] == snake[i] && r[i + 1] == snake[i + 1];
        assert IsUnit(Gap(snake, i));
      }
    }
    forall i | 0 <= i < |r| - 2
      ensures !Folds(r, i)
    {
      if i < n - 2 {
        assert r[i] == snake[i] && r[i + 2] == snake[i + 2];
        assert !Folds(snake, i);
      }
    }
  }

  /** A new game satisfies the invariant. */
  lemma StartInv(b: Board, draws: seq<Cell>)
    requires WithinGrid(b, draws) && HasVacant(b, StartSnake(b), draws)
    ensures Inv(b, StartState(b, draws))
  {
    var k :| 0 <= k < |draws| && Vacant(b, StartSnake(b), draws[k]);
    assert InGrid(b, draws[k]);
    var s := StartState(b, draws);
    assert InGrid(b, draws[FirstVacant(b, StartSnake(b), draws)]);
    assert Sub(s.snake[0], s.snake[1]) == Right && Sub(s.snake[1], s.snake[2]) == Right;
  }

  /** Every movement step preserves the invariant. */
  lemma MoveInv(b: Board, s: State, draws: seq<Cell>)
    requires Inv(b, s) && WithinGrid(b, draws) && Feeds(b, s, draws)
    ensures Inv(b, Move(b, s, draws))
  {
    var h := NextHead(s);
    if !Blocked(b, s.snake, h) {
      assert Sub(h, s.snake[0]) == s.dir;
      AdvanceKeepsShape(s.snake, h);
      var moved := Advance(s.snake, h);
      if h == s.food {
        GrowKeepsShape(moved);
        assert InGrid(b, draws[FirstVacant(b, Grow(moved), draws)]);
      } else {
        assert s.food !in s.snake[..|s.snake| - 1];
      }
    }
  }

  /** A successful step puts the new head in front of the old one. */
  lemma StepFront(b: Board, s: State, draws: seq<Cell>)
    requires Feeds(b, s, draws) && !Blocked(b, s.snake, NextHead(s))
    ensures var r := Move(b, s, draws);
      2 <= |r.snake| && r.snake[0] == NextHead(s) && r.snake[1] == s.snake[0]
  {
    var moved := Advance(s.snake, NextHead(s));
    assert moved[0] == NextHead(s) && moved[1] == s.snake[0];
  }

  /** A successful step draws the new head facing the direction just travelled. */
  lemma HeadFacesTravel(b: Board, s: State, draws: seq<Cell>)
    requires Inv(b, s) && Feeds(b, s, draws) && !Blocked(b, s.snake, NextHead(s))
    ensures var r := Move(b, s, draws);
      Render(r.snake)[0] == Segment(NextHead(s), Pose(HeadSprite, DirectionToAngle(s.dir), false, false))
  {
    var r := Move(b, s, draws);
    StepFront(b, s, draws);
    assert Sub(r.snake[0], r.snake[1]) == s.dir;
    assert Render(r.snake)[0] == Segment(r.snake[0], SegmentPose(r.snake, 0, 0));
  }

  /** A new game is drawn as head, one straight piece and tail, all facing right. */
  lemma StartRender(b: Board)
    ensures var c := StartSnake(b);
      Render(c) == [Segment(c[0], Pose(HeadSprite, -90, false, false)),
                    Segment(c[1], Pose(BodySprite, -90, false, false)),
                    Segment(c[2], Pose(TailSprite, -90, false, false))]
  {
    var c := StartSnake(b);
    assert Sub(c[0], c[1]) == Right && Sub(c[1], c[2]) == Right;
  }

  /** The draws suffice for one frame: a restart finds a vacant start cell, and a step taken
      in the steered direction can place food. */
  predicate TickFeeds(b: Board, s: State, pressed: set<Key>, timerFires: bool, draws: seq<Cell>)
  {
    && (s.over && R in pressed ==> HasVacant(b, StartSnake(b), draws))
    && (!s.over && timerFires ==> Feeds(b, s.(dir := Steer(s.dir, pressed)), draws))
  }

  /** One frame of the update loop: after game over only a restart is possible; otherwise
      input is read, then a step is taken when the movement timer fires. */
  function Tick(b: Board, s: State, pressed: set<Key>, timerFires: bool, draws: seq<Cell>): (r: State)
    requires TickFeeds(b, s, pressed, timerFires, draws)
    ensures s.over && R !in pressed ==> r == s
    ensures s.over && R in pressed ==> !r.over && r.snake == StartSnake(b) && r.dir == Right
    ensures !s.over ==> r.dir == Steer(s.dir, pressed)
    ensures !s.over && !timerFires ==> r.snake == s.snake && r.food == s.food && !r.over
    ensures !s.over && timerFires ==>
              && r.over == Blocked(b, s.snake, Add(s.snake[0], r.dir))
              && (!r.over ==> 2 <= |r.snake| && r.snake[0] == Add(s.snake[0], r.dir) && r.snake[1] == s.snake[0])
    ensures !s.over && IsUnit(s.dir) ==> IsUnit(r.dir) && !Reverses(r.dir, s.dir)
  {
    if s.over then
      if R in pressed then StartState(b, draws) else s
    else
      SteerNeverReverses(s.dir, pressed);
      var steered := s.(dir := Steer(s.dir, pressed));
      if timerFires then Move(b, steered, draws) else steered
  }

  /** Every frame preserves the invariant. */
  lemma TickInv(b: Board, s: State, pressed: set<Key>, timerFires: bool, draws: seq<Cell>)
    requires Inv(b, s) && WithinGrid(b, draws) && TickFeeds(b, s, pressed, timerFires, draws)
    ensures Inv(b, Tick(b, s, pressed, timerFires, draws))
  {
    if s.over {
      if R in pressed {
        StartInv(b, draws);
      }
    } else {
      SteerNeverReverses(s.dir, pressed);
      var steered := s.(dir := Steer(s.dir, pressed));
      if timerFires {
        MoveInv(b, steered, draws);
      }
    }
  }
}
