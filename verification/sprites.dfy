/** Choice of sprite, rotation and mirroring for each snake segment, as a pure function of
    the neighbouring cells. */
module Sprites {
  import opened Grid

  /** The sprite a segment's renderer shows; Prefab is whatever a freshly instantiated
      segment carries before its first sprite update. */
  datatype Sprite = Prefab | HeadSprite | BodySprite | TailSprite | TurnSprite

  /** What the renderer of one segment holds: sprite, z rotation in degrees, mirror flags. */
  datatype Pose = Pose(sprite: Sprite, angle: int, flipX: bool, flipY: bool)

  /** A freshly instantiated segment: identity rotation, no mirroring. */
  const Fresh: Pose := Pose(Prefab, 0, false, false)

  /** One segment object: its transform's grid cell and its renderer's pose. */
  datatype Segment = Segment(cell: Cell, pose: Pose)

  /** Rotation of a vector by an angle in degrees, counter-clockwise for positive angles (the
      engine's positive z rotation); meant for multiples of 90, where it is a whole number of
      quarter turns taken modulo a full turn. */
  function Rotate(v: Cell, degrees: int): Cell
  {
    var quarters := (degrees / 90) % 4;
    if quarters == 0 then v
    else if quarters == 1 then Cell(-v.y, v.x)
    else if quarters == 2 then Cell(-v.x, -v.y)
    else Cell(v.y, -v.x)
  }

  /** Mirroring of a vector by the renderer's flip flags. */
  function Mirror(v: Cell, flipX: bool, flipY: bool): Cell
  {
    Cell(if flipX then -v.x else v.x, if flipY then -v.y else v.y)
  }

  /** The rotation that turns the up-facing sprite art toward direction d; anything that is
      not a unit direction gets no rotation. */
  function DirectionToAngle(d: Cell): (a: int)
    ensures IsUnit(d) ==> -180 < a <= 180 && a % 90 == 0 && Rotate(Up, a) == d
    ensures !IsUnit(d) ==> a == 0
  {
    if d == Up then 0
    else if d == Right then -90
    else if d == Down then 180
    else if d == Left then 90
    else 0
  }

  /** One vertical and one horizontal unit direction, in either order. */
  predicate TurnPair(from: Cell, to: Cell)
  {
    (IsVertical(from) && IsHorizontal(to)) || (IsHorizontal(from) && IsVertical(to))
  }

  /** The pose of a turn piece given the step out of the segment toward the head side (from)
      and the step into it from the tail side (to). The turn art itself is an asset; the model
      takes its unmirrored arms to point Up and Right, the one choice under which each of the
      four flag settings maps the arms onto the pair of steps that selects it. For any other
      pair the rotation the renderer held before (prior) is left in place. */
  function TurnPose(from: Cell, to: Cell, prior: int): (p: Pose)
    ensures p.sprite == TurnSprite
    ensures TurnPair(from, to) ==>
              p.angle == 0 && {Mirror(Up, p.flipX, p.flipY), Mirror(Right, p.flipX, p.flipY)} == {from, to}
    ensures !TurnPair(from, to) ==> p.angle == prior && !p.flipX && !p.flipY
  {
    if (from == Up && to == Right) || (from == Right && to == Up) then
      Pose(TurnSprite, 0, false, false)
    else if (from == Down && to == Right) || (from == Right && to == Down) then
      Pose(TurnSprite, 0, false, true)
    else if (from == Up && to == Left) || (from == Left && to == Up) then
      Pose(TurnSprite, 0, true, false)
    else if (from == Down && to == Left) || (from == Left && to == Down) then
      Pose(TurnSprite, 0, true, true)
    else
      Pose(TurnSprite, prior, false, false)
  }

  /** A turn piece looks the same whichever of its two neighbours comes first. */
  lemma TurnPoseSymmetric(from: Cell, to: Cell, prior: int)
    ensures TurnPose(from, to, prior) == TurnPose(to, from, prior)
  {
  }

  /** The pose segment i of body s is given; prior is the rotation its renderer held before.
      The first segment is the head, the last the tail, and every other one a straight piece or
      a turn piece; only turn pieces are ever mirrored. */
  function SegmentPose(s: seq<Cell>, i: nat, prior: int): (p: Pose)
    requires 2 <= |s| && i < |s|
    ensures i == 0 ==> p.sprite == HeadSprite
    ensures 0 < i == |s| - 1 ==> p.sprite == TailSprite
    ensures 0 < i < |s| - 1 ==> p.sprite == BodySprite || p.sprite == TurnSprite
    ensures p.sprite != TurnSprite ==> !p.flipX && !p.flipY
  {
    if i == 0 then
      Pose(HeadSprite, DirectionToAngle(Sub(s[0], s[1])), false, false)
    else if i == |s| - 1 then
      Pose(TailSprite, DirectionToAngle(Sub(s[i - 1], s[i])), false, false)
    else
      var prevDir := Sub(s[i - 1], s[i]);
      var nextDir := Sub(s[i], s[i + 1]);
      if prevDir != nextDir then TurnPose(prevDir, nextDir, prior)
      else Pose(BodySprite, DirectionToAngle(prevDir), false, false)
  }

  /** What a body of orthogonal neighbours that never folds back looks like: the head faces
      away from its neighbour (the way it last moved), the tail faces toward its neighbour, a
      segment is straight body exactly when the body runs straight through it and then faces
      that way, and every other interior segment is a turn piece whose flags map Up and Right
      onto the step into it and the step out of it. */
  lemma SegmentKinds(s: seq<Cell>, i: nat, prior: int)
    requires 2 <= |s| && i < |s| && Chain(s) && NoFold(s)
    ensures var p := SegmentPose(s, i, prior);
      && (i == 0 ==> p.sprite == HeadSprite && Rotate(Up, p.angle) == Sub(s[0], s[1]))
      && (0 < i == |s| - 1 ==> p.sprite == TailSprite && Rotate(Up, p.angle) == Sub(s[i - 1], s[i]))
      && (0 < i < |s| - 1 ==>
            && (p.sprite == BodySprite <==> Sub(s[i - 1], s[i]) == Sub(s[i], s[i + 1]))
            && (p.sprite == BodySprite ==> Rotate(Up, p.angle) == Sub(s[i - 1], s[i]))
            && (p.sprite != BodySprite ==>
                  && p.sprite == TurnSprite && p.angle == 0
                  && {Mirror(Up, p.flipX, p.flipY), Mirror(Right, p.flipX, p.flipY)}
                     == {Sub(s[i - 1], s[i]), Sub(s[i], s[i + 1])}))
      && (p.sprite != TurnSprite ==> !p.flipX && !p.flipY)
  {
    if i == 0 {
      assert IsUnit(Gap(s, 0));
    } else if i == |s| - 1 {
      assert IsUnit(Gap(s, i - 1));
    } else {
      assert IsUnit(Gap(s, i - 1)) && IsUnit(Gap(s, i)) && !Folds(s, i - 1);
    }
  }

  /** The flags of a turn piece map Up and Right onto the step from the segment to its
      head-side neighbour and onto the step from its tail-side neighbour into it; the second
      points away from that neighbour. So with turn art whose unmirrored arms point Up and
      Right, on such a body one arm always reaches the head-side neighbour and no arm ever
      reaches the tail-side neighbour. */
  lemma TurnMissesTailSide(s: seq<Cell>, i: nat, prior: int)
    requires 2 <= |s| && 0 < i < |s| - 1 && Chain(s) && NoFold(s)
    requires SegmentPose(s, i, prior).sprite == TurnSprite
    ensures var p := SegmentPose(s, i, prior);
      var arms := {Mirror(Up, p.flipX, p.flipY), Mirror(Right, p.flipX, p.flipY)};
      Sub(s[i - 1], s[i]) in arms && Sub(s[i + 1], s[i]) !in arms
  {
    SegmentKinds(s, i, prior);
    assert IsUnit(Gap(s, i)) && !Folds(s, i - 1);
  }

  /** In such a body the rotation a renderer held before never shows through: the pose of every
      segment depends on the cells alone. */
  lemma Settled(s: seq<Cell>, i: nat, prior: int, prior': int)
    requires 2 <= |s| && i < |s| && Chain(s) && NoFold(s)
    ensures SegmentPose(s, i, prior) == SegmentPose(s, i, prior')
  {
    if 0 < i < |s| - 1 {
      assert IsUnit(Gap(s, i - 1)) && IsUnit(Gap(s, i)) && !Folds(s, i - 1);
    }
  }

  /** The segments as drawn once every renderer has been updated. */
  function Render(s: seq<Cell>): seq<Segment>
    requires 2 <= |s|
  {
    seq(|s|, i requires 0 <= i < |s| => Segment(s[i], SegmentPose(s, i, 0)))
  }

  /** The segments after each renderer has been updated from body s, keeping each segment's
      cell and passing on the rotation it held. */
  function Reposed(s: seq<Cell>, before: seq<Segment>): (r: seq<Segment>)
    requires 2 <= |s| && |before| == |s|
    ensures |r| == |s|
  {
    seq(|s|, i requires 0 <= i < |s| => Segment(before[i].cell, SegmentPose(s, i, before[i].pose.angle)))
  }

  /** Once every renderer of such a body has been updated from its own cell, whatever
      rotations they held before, the segments are exactly the rendering of the body. */
  lemma RenderedAfterUpdate(s: seq<Cell>, before: seq<Segment>)
    requires 2 <= |s| && Chain(s) && NoFold(s)
    requires |before| == |s|
    requires forall i :: 0 <= i < |s| ==> before[i].cell == s[i]
    ensures Reposed(s, before) == Render(s)
  {
    forall i | 0 <= i < |s|
      ensures Reposed(s, before)[i] == Render(s)[i]
    {
      Settled(s, i, before[i].pose.angle, 0);
    }
  }

  /** A straight body moving in direction d is drawn as head, straight pieces and tail, all
      rotated toward d. */
  lemma StraightRender(s: seq<Cell>, d: Cell)
    requires 2 <= |s| && IsUnit(d)
    requires forall i :: 0 <= i < |s| - 1 ==> Sub(s[i], s[i + 1]) == d
    ensures forall i :: 0 <= i < |s| ==>
      && Render(s)[i].cell == s[i]
      && Rotate(Up, Render(s)[i].pose.angle) == d
      && Render(s)[i].pose.sprite == (if i == 0 then HeadSprite else if i == |s| - 1 then TailSprite else BodySprite)
      && !Render(s)[i].pose.flipX && !Render(s)[i].pose.flipY
  {
    forall i | 0 <= i < |s|
      ensures Rotate(Up, Render(s)[i].pose.angle) == d
    {
      if 0 < i < |s| - 1 {
        assert Sub(s[i - 1], s[i]) == d && Sub(s[i], s[i + 1]) == d;
      }
    }
  }
}
