/**
 * Plane geometry shared by the scene: raylib's Vector2 and Rectangle, with
 * `float` modelled as exact `real` arithmetic.
 */
module Geometry {

  datatype Vector2 = Vector2(x: real, y: real)

  /** Axis-aligned rectangle given by its top-left corner and its size (y grows downward). */
  datatype Rectangle = Rectangle(x: real, y: real, width: real, height: real)

  const Origin := Vector2(0.0, 0.0)

  /** The all-zero rectangle returned for objects without a texture. */
  const EmptyRect := Rectangle(0.0, 0.0, 0.0, 0.0)

  function Add(a: Vector2, b: Vector2): Vector2
  {
    Vector2(a.x + b.x, a.y + b.y)
  }

  function Sub(a: Vector2, b: Vector2): Vector2
  {
    Vector2(a.x - b.x, a.y - b.y)
  }

  /** raymath's Lerp: the point the fraction `t` of the way from `a` to `b`. */
  function Lerp(a: real, b: real, t: real): real
  {
    a + t * (b - a)
  }

  function LerpPoint(a: Vector2, b: Vector2, t: real): Vector2
  {
    Vector2(Lerp(a.x, b.x, t), Lerp(a.y, b.y, t))
  }

  /**
   * raylib's CheckCollisionPointRec, whose source is not part of this model:
   * taken to be half-open containment, left and top edges inside, right and
   * bottom edges outside.
   */
  predicate ContainsPoint(r: Rectangle, p: Vector2)
  {
    r.x <= p.x < r.x + r.width && r.y <= p.y < r.y + r.height
  }

  /** The rectangle of the given size whose centre is `center`. */
  function CenteredRect(center: Vector2, width: real, height: real): (r: Rectangle)
    ensures r.x + width / 2.0 == center.x && r.y + height / 2.0 == center.y
    ensures r.width == width && r.height == height
  {
    Rectangle(center.x - 0.5 * width, center.y - 0.5 * height, width, height)
  }
}
