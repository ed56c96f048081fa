# Grid snake: a verified model of the game manager

The game is a classic snake on a small rectangular grid (7 by 7 by default), optionally with
wall tiles. One manager object owns the whole game. It holds:

- the snake's body cells, head first, and one segment object per cell;
- the current direction;
- the food cell;
- a game-over flag.

Every frame it reads the keyboard (W/A/S/D or the arrow keys steer; R restarts after game over).
When the movement timer fires, it moves the snake one cell:

- Running off the board, into any body cell, or into a wall ends the game.
- Otherwise the head enters the new cell and the tail cell is dropped.
- On the food cell the snake then grows by one cell and new food is drawn at random until a
  draw lands on a vacant cell.

Finally every segment gets its sprite from its neighbours: head, straight body, tail, or a
mirrored turn piece.

The model has five modules:

- `Grid` (grid.dfy): cells and unit directions, the board, and two shape predicates on a body.
  `Chain` says consecutive cells are orthogonal neighbours. `NoFold` says the body never doubles
  straight back.
- `Sprites` (sprites.dfy): the choice of sprite, rotation and mirroring for each segment, as
  pure functions. `Render` is the picture of a body.
- `Rules` (rules.dfy): the game as pure functions over a value `State`:
  - `Steer` reads input and `StartState` starts a game;
  - `Move` is one movement step and `Tick` is one frame;
  - the invariant `Inv` is proved to hold at the start and to survive every step and frame.
- `Game` (game.dfy): the manager object as a class whose methods update its fields in place.
  Each method is proved against the functions of `Rules`, and the class invariant `Valid` ties
  the fields to `Inv` and `Render`.
- `Scenarios` (scenarios.dfy): small concrete games showing how the rules behave, including
  the behaviours of growth and steering described below.

The engine services are replaced as follows:

- The random number source becomes a sequence of draws, each on the board.
- The wall tilemap becomes the set of cells holding a wall tile; a missing tilemap is the empty
  set.
- The keyboard becomes the set of keys pressed in the frame.
- The movement timer becomes a flag saying whether it fires in the frame.

Behaviours the code has, modelled as written:

- A move into the cell the tail is about to leave ends the game. The self-collision test looks
  at the whole body before the tail is dropped.
- Growth appends its cell after the tail has already been dropped. It continues the direction of
  the new last two cells, and that cell is never checked. So the grown body can leave the board
  (`Scenarios.GrowthCanLeaveGrid`) or hold one cell twice (`Scenarios.GrowthCanOverlap`). For this
  reason "all cells distinct" and "all cells on the board" are not part of the invariant. The
  invariant keeps orthogonal neighbours, no fold-back, and the head and food on the board. A
  natural reading of growth keeps the old tail and adds a cell beyond it; the code does not.
- The reverse check compares against the direction of the previous frame, not of the last
  move. Two frames between moves can therefore turn the snake straight back into its own neck
  (`Scenarios.TwoFramesCanReverse`).
- A turn piece whose two steps are not one vertical and one horizontal unit keeps the rotation
  its renderer held. Under the invariant this never happens (`Sprites.Settled`).
- A turn piece is mirrored from the step into it and the step out of it, not from the
  directions of its two neighbours. So two corners with no side in common get the same pose,
  and whatever the turn art, one of them is drawn with an arm off its neighbours
  (`Scenarios.OppositeCornersAlike`). With turn art whose unmirrored arms point Up and Right
  (the art the flag settings fit), no arm of any turn piece reaches its tail-side neighbour
  (`Sprites.TurnMissesTailSide`).

## Model

| member | source | states |
|---|---|---|
| Grid.HalfTowardZero | FSUFall25Jam/Assets/Scripts/SnakeGameManager.cs:87 | the centre coordinate is half the grid size rounded toward zero, as integer division does for either sign |
| Sprites.DirectionToAngle | FSUFall25Jam/Assets/Scripts/SnakeGameManager.cs:254-261 | for each unit direction the angle is a multiple of 90 in (-180, 180] that turns the up-facing art to face that direction; any other vector gets 0 |
| Sprites.TurnPose | FSUFall25Jam/Assets/Scripts/SnakeGameManager.cs:215-245 | a turn piece always shows the turn sprite; for one vertical and one horizontal step it is unrotated and its flags map Up and Right (the arms the turn art is taken to have) exactly onto the two steps it is given; for any other pair it is unmirrored and keeps the prior rotation |
| Sprites.TurnPoseSymmetric | FSUFall25Jam/Assets/Scripts/SnakeGameManager.cs:221-244 | the turn pose does not depend on which of its two steps comes first |
| Sprites.SegmentPose | FSUFall25Jam/Assets/Scripts/SnakeGameManager.cs:184-211 | the first segment gets the head sprite, the last the tail sprite, every other one the body or turn sprite, and only turn pieces are mirrored |
| Sprites.TurnMissesTailSide | FSUFall25Jam/Assets/Scripts/SnakeGameManager.cs:201-205 | on such a body the flags of every turn piece map Up or Right onto the step to its head-side neighbour and neither onto the step to its tail-side neighbour; so with turn art whose arms point Up and Right, one arm reaches the head-side neighbour and none the tail-side neighbour |
| Sprites.SegmentKinds | FSUFall25Jam/Assets/Scripts/SnakeGameManager.cs:176-213 | on a body of orthogonal neighbours without fold-back, the head faces away from its neighbour and the tail faces toward its neighbour; an interior segment is straight body exactly when the body runs straight through it, and then faces that way; otherwise it is a turn piece whose flags map Up and Right onto the step into it and the step out of it; only turn pieces are mirrored |
| Sprites.Settled | FSUFall25Jam/Assets/Scripts/SnakeGameManager.cs:198-211 | on such a body the rotation a renderer held before never affects the pose it is given |
| Sprites.RenderedAfterUpdate | FSUFall25Jam/Assets/Scripts/SnakeGameManager.cs:176-213 | updating every renderer of such a body, whatever it held before, yields exactly the body's picture |
| Sprites.StraightRender | FSUFall25Jam/Assets/Scripts/SnakeGameManager.cs:184-211 | a straight body moving in one direction is drawn as head, straight pieces and tail, all facing that direction and unmirrored |
| Rules.Steer | FSUFall25Jam/Assets/Scripts/SnakeGameManager.cs:61-71 | input either keeps the direction or switches to a direction whose key was pressed and which is not the reverse of the current one |
| Rules.SteerPriority | FSUFall25Jam/Assets/Scripts/SnakeGameManager.cs:61-71 | input equals the reference rule: among the allowed pressed directions, the first of Up, Down, Left, Right wins; with none allowed the direction stays |
| Rules.SteerNeverReverses | FSUFall25Jam/Assets/Scripts/SnakeGameManager.cs:61-71 | from a unit direction, one frame of input gives a unit direction that is never the reverse of the old one |
| Rules.FirstVacant | FSUFall25Jam/Assets/Scripts/SnakeGameManager.cs:162-169 | the draw food placement keeps is vacant (off the snake, not a wall) and every earlier draw is not |
| Rules.StartSnake | FSUFall25Jam/Assets/Scripts/SnakeGameManager.cs:87-99 | a new body has three cells: the centre cell (halves rounded toward zero) and the next two cells to its left |
| Rules.StartState | FSUFall25Jam/Assets/Scripts/SnakeGameManager.cs:73-103 | a new game has three cells in a row from the centre leftwards, faces right, is not over, and has food on a drawn vacant cell |
| Rules.Blocked | FSUFall25Jam/Assets/Scripts/SnakeGameManager.cs:110-133 | a move is blocked when the new head is off the board, on any body cell, or on a wall |
| Rules.Advance | FSUFall25Jam/Assets/Scripts/SnakeGameManager.cs:136-137 | the advanced body keeps its length, starts with the new head, and has every old cell but the last moved back one place |
| Rules.Extension | FSUFall25Jam/Assets/Scripts/SnakeGameManager.cs:152-155 | the appended cell continues the tail's last step straight on, so it is an orthogonal neighbour of the tail and not the cell before it whenever that step is a unit step |
| Rules.Grow | FSUFall25Jam/Assets/Scripts/SnakeGameManager.cs:152-159 | the grown body is the body with exactly one cell appended, and that cell continues the last step straight on |
| Rules.Move | FSUFall25Jam/Assets/Scripts/SnakeGameManager.cs:105-150 | a step keeps the direction, ends the game exactly when the new head is off the board, on the body or on a wall, and lengthens the body by one exactly when it eats |
| Rules.BlockedStepFreezes | FSUFall25Jam/Assets/Scripts/SnakeGameManager.cs:107-133 | a blocked step sets game over and changes nothing else |
| Rules.PlainStep | FSUFall25Jam/Assets/Scripts/SnakeGameManager.cs:135-140 | a step that neither collides nor eats puts the head in the new cell, shifts every other cell back one place, keeps length, food, direction and flag, and leaves the old tail cell occupied only if it occurred earlier in the body |
| Rules.EatingStep | FSUFall25Jam/Assets/Scripts/SnakeGameManager.cs:142-147 | an eating step adds exactly one cell after the advanced body, continuing the tail straight on, and places new food on a vacant cell other than the eaten one |
| Rules.AdvanceKeepsShape | FSUFall25Jam/Assets/Scripts/SnakeGameManager.cs:135-137 | moving into a neighbouring cell not on the body keeps orthogonal neighbours and no fold-back |
| Rules.GrowKeepsShape | FSUFall25Jam/Assets/Scripts/SnakeGameManager.cs:152-159 | growth keeps orthogonal neighbours and no fold-back |
| Rules.StartInv | FSUFall25Jam/Assets/Scripts/SnakeGameManager.cs:73-103 | a new game satisfies the invariant |
| Rules.MoveInv | FSUFall25Jam/Assets/Scripts/SnakeGameManager.cs:105-150 | every movement step preserves the invariant |
| Rules.StepFront | FSUFall25Jam/Assets/Scripts/SnakeGameManager.cs:136-137 | after a successful step the new head is in front of the old head |
| Rules.HeadFacesTravel | FSUFall25Jam/Assets/Scripts/SnakeGameManager.cs:184-190 | after a successful step the head is drawn in the new cell with the head sprite, rotated toward the direction just travelled |
| Rules.StartRender | FSUFall25Jam/Assets/Scripts/SnakeGameManager.cs:93-101 | a new game is drawn as head, one straight piece and tail, all rotated to face right |
| Rules.Tick | FSUFall25Jam/Assets/Scripts/SnakeGameManager.cs:42-59 | after game over a frame without R changes nothing, and R lays out the start body facing right; a running frame first sets the direction to the steered one, which never reverses a unit direction; without the timer it leaves body, food and flag alone; with the timer it ends the game exactly when the cell ahead in the new direction is blocked, and otherwise puts the head there with the old head behind it |
| Rules.TickInv | FSUFall25Jam/Assets/Scripts/SnakeGameManager.cs:42-59 | every frame preserves the invariant |
| Game.SnakeGameManager.constructor | FSUFall25Jam/Assets/Scripts/SnakeGameManager.cs:37-40 | the object starts in the state of a new game, with its invariant |
| Game.SnakeGameManager.Update | FSUFall25Jam/Assets/Scripts/SnakeGameManager.cs:42-59 | one frame takes the fields to the state of `Rules.Tick` and keeps the invariant |
| Game.SnakeGameManager.HandleInput | FSUFall25Jam/Assets/Scripts/SnakeGameManager.cs:61-71 | the direction becomes the steered direction, and nothing else changes |
| Game.SnakeGameManager.StartNewGame | FSUFall25Jam/Assets/Scripts/SnakeGameManager.cs:73-103 | the fields become the state of a new game, with every segment drawn as the body demands |
| Game.SnakeGameManager.MoveSnake | FSUFall25Jam/Assets/Scripts/SnakeGameManager.cs:105-150 | the fields become the state of `Rules.Move`, the invariant is kept, and the segments are redrawn from the new body |
| Game.SnakeGameManager.AddSegment | FSUFall25Jam/Assets/Scripts/SnakeGameManager.cs:152-160 | one cell continuing the tail is appended to the body, and one fresh segment at that cell to the segments |
| Game.SnakeGameManager.SpawnFood | FSUFall25Jam/Assets/Scripts/SnakeGameManager.cs:162-174 | the food lands on the first vacant draw |
| Game.SnakeGameManager.UpdateSnakeSprites | FSUFall25Jam/Assets/Scripts/SnakeGameManager.cs:176-213 | each segment keeps its cell and gets the pose its neighbours demand, given the rotation it held |
| Game.SnakeGameManager.GameOver | FSUFall25Jam/Assets/Scripts/SnakeGameManager.cs:263-267 | the game-over flag is set, and nothing else changes |
| Scenarios.StartsAtCentre | FSUFall25Jam/Assets/Scripts/SnakeGameManager.cs:87-99 | on the default 7 by 7 board a new snake occupies (3,3), (2,3), (1,3) |
| Scenarios.FirstStep | FSUFall25Jam/Assets/Scripts/SnakeGameManager.cs:42-59 | a frame with no keys and a firing timer moves the starting row of cells one cell to the right |
| Scenarios.EdgeEndsGame | FSUFall25Jam/Assets/Scripts/SnakeGameManager.cs:109-114 | a head on the right edge moving right ends the game and changes nothing else |
| Scenarios.TailCellEndsGame | FSUFall25Jam/Assets/Scripts/SnakeGameManager.cs:116-121 | a snake coiled in a square whose head moves into the tail cell ends the game, though that cell would have been vacated |
| Scenarios.GrowthCanLeaveGrid | FSUFall25Jam/Assets/Scripts/SnakeGameManager.cs:152-159 | eating beside the left edge with the tail bent toward it appends a cell off the board, while the invariant still holds |
| Scenarios.GrowthCanOverlap | FSUFall25Jam/Assets/Scripts/SnakeGameManager.cs:152-159 | in a coiled body, eating appends a cell equal to the new head, so the grown body holds one cell twice, while the invariant still holds |
| Scenarios.OppositeCornersAlike | FSUFall25Jam/Assets/Scripts/SnakeGameManager.cs:198-205 | a corner with neighbours above and to the left and a corner with neighbours to the right and below get the same unrotated, unmirrored turn pose, so whatever the turn art one of them is drawn with an arm off its neighbours |
| Scenarios.TwoFramesCanReverse | FSUFall25Jam/Assets/Scripts/SnakeGameManager.cs:61-71 | W in one frame and A in the next, before the timer fires, turn a right-moving snake into its own neck, and the next step ends the game |

## Left out

- Segment objects hold their grid cell rather than a world position. The world conversion
  (origin and cell size, floating point) and the tilemap's world-to-cell lookup are not part of
  this model; a wall is a cell in the wall set.
- The timer is a flag saying whether it fires; elapsed-time accumulation and its reset are not
  modelled.
- Sprites.TurnPose: the turn art is an asset, not part of this model; the model takes its
  unmirrored arms to point Up and Right, the only art under which all four flag settings map
  the arms onto the pair of steps that selects them. Statements about where turn arms point
  hold under that assumption.
- Rotations are whole degrees about the z axis rather than quaternions, and sprites are an
  enumeration rather than assets.
- Creating and destroying segment and food objects, the food object's tag, and the game-over
  log message are not modelled. The engine's call of Start becomes the constructor.
- Random cells become a sequence of draws, each assumed on the board.
- Game.SnakeGameManager.SpawnFood: requires some draw to be vacant. The source keeps drawing and
  never returns on a full board.
- Game.SnakeGameManager.MoveSnake: requires draws with a vacant cell when the step eats, for the
  same reason.
- Game.SnakeGameManager.StartNewGame: requires draws with a vacant cell, for the same reason.
- Game.SnakeGameManager.constructor: requires draws with a vacant cell, for the same reason.
- Game.SnakeGameManager.Update: requires draws with a vacant cell when the frame restarts or
  eats, for the same reason.
- Rules.Move: requires at least two body cells on every step. The source needs two on every
  step that is not blocked, since redrawing the head reads the second cell, but a blocked step
  of a one-cell body would only set game over. The invariant guarantees three cells.
