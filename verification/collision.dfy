/**
 * Collision resolution against per-object collision maps (main.cpp:133-178).
 * A map is an image centred on its object's position; a pixel whose red
 * channel is below 128 blocks movement.
 */
module Collision {
  import opened Geometry
  import opened Assets
  import opened Objects

  const BlockThreshold := 128

  /**
   * CheckCollisionMap (main.cpp:133-149): floor both coordinates; a point off
   * the image is open, a point on it is blocked exactly when its pixel is dark.
   */
  function CheckCollisionMap(img: ImageData, p: Vector2): (blocked: bool)
    requires ImageWellFormed(img)
    ensures blocked <==>
      && 0 <= p.x.Floor < img.width && 0 <= p.y.Floor < img.height
      && img.red[p.y.Floor][p.x.Floor] < BlockThreshold
  {
    var xi := p.x.Floor;
    var yi := p.y.Floor;
    if xi < 0 then false
    else if xi >= img.width then false
    else if yi < 0 then false
    else if yi >= img.height then false
    else img.red[yi][xi] < BlockThreshold
  }

  /** A blocked point lies inside the image's real extent. */
  lemma BlockedIsInsideImage(img: ImageData, p: Vector2)
    requires ImageWellFormed(img)
    requires CheckCollisionMap(img, p)
    ensures 0.0 <= p.x < img.width as real && 0.0 <= p.y < img.height as real
  {
  }

  predicate MapWellFormed(o: Object)
  {
    o.collisionMap.Some? ==> ImageWellFormed(o.collisionMap.value.data)
  }

  /** The collision map's rectangle: map-sized, centred on the object (main.cpp:161-166). */
  function MaskRect(o: Object): Rectangle
    requires o.collisionMap.Some?
  {
    var img := o.collisionMap.value.data;
    CenteredRect(o.position, img.width as real, img.height as real)
  }

  /** Whether `o`'s collision map blocks the world point `p` (main.cpp:159-173). */
  predicate Blocks(o: Object, p: Vector2)
    requires MapWellFormed(o)
  {
    && o.collisionMap.Some?
    && var rect := MaskRect(o);
       ContainsPoint(rect, p) && CheckCollisionMap(o.collisionMap.value.data, Sub(p, Vector2(rect.x, rect.y)))
  }

  /**
   * The rectangle test is only a cheap pre-filter: for a well-formed map the
   * pixel test alone gives the same verdict.
   */
  lemma RectangleTestIsRedundant(o: Object, p: Vector2)
    requires MapWellFormed(o) && o.collisionMap.Some?
    ensures var rect := MaskRect(o);
      Blocks(o, p) <==> CheckCollisionMap(o.collisionMap.value.data, Sub(p, Vector2(rect.x, rect.y)))
  {
    var rect := MaskRect(o);
    var img := o.collisionMap.value.data;
    var local := Sub(p, Vector2(rect.x, rect.y));
    if CheckCollisionMap(img, local) {
      BlockedIsInsideImage(img, local);
    }
  }

  /**
   * MovePointWithCollisions (main.cpp:150-178): all or nothing. The step to
   * `position + velocity` is taken unless some object's map blocks that point,
   * in which case `position` is returned unchanged.
   */
  method MovePointWithCollisions(objects: seq<Object>, position: Vector2, velocity: Vector2) returns (r: Vector2)
    requires forall i :: 0 <= i < |objects| ==> MapWellFormed(objects[i])
    ensures r == position || r == Add(position, velocity)
    ensures (exists i :: 0 <= i < |objects| && Blocks(objects[i], Add(position, velocity))) ==> r == position
    ensures (forall i :: 0 <= i < |objects| ==> !Blocks(objects[i], Add(position, velocity))) ==> r == Add(position, velocity)
  {
    var newPosition := Add(position, velocity);
    var i := 0;
    while i < |objects|
      invariant 0 <= i <= |objects|
      invariant forall j :: 0 <= j < i ==> !Blocks(objects[j], newPosition)
    {
      var obj := objects[i];
      if obj.collisionMap.Some? {
        var img := obj.collisionMap.value.data;
        var rectangle := CenteredRect(obj.position, img.width as real, img.height as real);
        var topLeft := Vector2(rectangle.x, rectangle.y);
        var localPosition := Sub(newPosition, topLeft);
        if ContainsPoint(rectangle, newPosition) && CheckCollisionMap(img, localPosition) {
          return position;
        }
      }
      i := i + 1;
    }
    return newPosition;
  }
}
