/**
 * The two-field value type `Point` and its by-value `move`.
 *
 * `move` takes its receiver by value (`this Point self`), so it works on a
 * copy and hands the copy back; the caller's point is never touched. An
 * immutable datatype and a pure member function say exactly that.
 */
module Points {

  datatype Point = Point(x: int, y: int)

  /** `self.move(dx, dy)`: the copy `self` displaced by `(dx, dy)`. */
  function Move(self: Point, dx: int, dy: int): (q: Point)
    ensures q.x - self.x == dx && q.y - self.y == dy
  {
    Point(self.x + dx, self.y + dy)
  }

  /** Successive moves add up: moving by one offset and then another is the
      same as moving once by their sum. */
  lemma MoveCompose(p: Point, dx1: int, dy1: int, dx2: int, dy2: int)
    ensures Move(Move(p, dx1, dy1), dx2, dy2) == Move(p, dx1 + dx2, dy1 + dy2)
  {
  }

  /** Moving back by the opposite offset returns the original point, and a
      zero move changes nothing. */
  lemma MoveInverse(p: Point, dx: int, dy: int)
    ensures Move(Move(p, dx, dy), -dx, -dy) == p
    ensures Move(p, 0, 0) == p
  {
  }

  /** A move is determined by its endpoints: the offset is recovered as the
      difference of the two points. */
  lemma MoveOffsetRecovered(p: Point, q: Point)
    ensures Move(p, q.x - p.x, q.y - p.y) == q
  {
  }

  /** The scenario of `make_message`: `p{10, 20}` moved by `(5, 7)`. The
      returned copy is `(15, 27)` while `p` itself remains `(10, 20)`. */
  method MoveScenario() returns (p: Point, q: Point)
    ensures p == Point(10, 20)
    ensures q == Point(15, 27)
  {
    p := Point(10, 20);
    q := Move(p, 5, 7);
  }
}
