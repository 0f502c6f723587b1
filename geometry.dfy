/**
 Axis-aligned rectangle overlap and the minimum-translation correction that the
 collision system applies to a player (`CollisionSystem::checkCollision`).
 Coordinates are exact reals; screen y grows downwards.
 */
module Geometry {
  import opened Wrappers

  datatype Vec2 = Vec2(x: real, y: real) {
    function Plus(v: Vec2): Vec2 { Vec2(x + v.x, y + v.y) }
  }

  /** `Transformable`: a rectangle given by its size and its top-left corner. */
  datatype Transform = Transform(size: Vec2, position: Vec2)

  datatype Direction = None | Up | Down | Left | Right

  /** `CollisionInfo`: the push to add to the player's position and its label. */
  datatype CollisionInfo = CollisionInfo(collisionRange: Vec2, direction: Direction)

  function Abs(r: real): (a: real)
    ensures a >= 0.0 && (a == r || a == -r)
  {
    if r < 0.0 then -r else r
  }

  predicate PositiveSize(t: Transform) {
    t.size.x > 0.0 && t.size.y > 0.0
  }

  /** Sum of the two half-widths (`w`). */
  function HalfWidths(a: Transform, b: Transform): real {
    0.5 * (a.size.x + b.size.x)
  }

  /** Sum of the two half-heights (`h`). */
  function HalfHeights(a: Transform, b: Transform): real {
    0.5 * (a.size.y + b.size.y)
  }

  /** Horizontal distance from the centre of `b` to the centre of `a` (`dx`). */
  function CentreDx(a: Transform, b: Transform): real {
    (a.position.x + 0.5 * a.size.x) - (b.position.x + 0.5 * b.size.x)
  }

  /** Vertical distance from the centre of `b` to the centre of `a` (`dy`). */
  function CentreDy(a: Transform, b: Transform): real {
    (a.position.y + 0.5 * a.size.y) - (b.position.y + 0.5 * b.size.y)
  }

  /** Inclusive overlap test: rectangles that only share an edge overlap. */
  predicate Overlap(a: Transform, b: Transform) {
    Abs(CentreDx(a, b)) <= HalfWidths(a, b) && Abs(CentreDy(a, b)) <= HalfHeights(a, b)
  }

  predicate Vertical(d: Direction) { d == Up || d == Down }

  predicate Horizontal(d: Direction) { d == Left || d == Right }

  /** The transform `t` moved by `v`; its size is kept. */
  function Moved(t: Transform, v: Vec2): (m: Transform)
    ensures m.size == t.size
  {
    Transform(t.size, t.position.Plus(v))
  }

  /**
   `checkCollision(player, other)`: no result when the rectangles are apart;
   otherwise an axis-aligned push whose magnitude is the penetration depth on
   that axis. The label follows the source's convention: a +y push is Up, a -x
   push Right, a +x push Left and a -y push Down.
   */
  function CheckCollision(p: Transform, o: Transform): (r: Option<CollisionInfo>)
    ensures r.Some? <==> Overlap(p, o)
    ensures r.Some? ==> r.value.direction != Direction.None
    ensures r.Some? && Vertical(r.value.direction) ==>
      r.value.collisionRange.x == 0.0 &&
      Abs(r.value.collisionRange.y) == HalfHeights(p, o) - Abs(CentreDy(p, o))
    ensures r.Some? && Horizontal(r.value.direction) ==>
      r.value.collisionRange.y == 0.0 &&
      Abs(r.value.collisionRange.x) == HalfWidths(p, o) - Abs(CentreDx(p, o))
    ensures r.Some? && r.value.direction == Up ==> r.value.collisionRange.y >= 0.0
    ensures r.Some? && r.value.direction == Down ==> r.value.collisionRange.y <= 0.0
    ensures r.Some? && r.value.direction == Left ==> r.value.collisionRange.x >= 0.0
    ensures r.Some? && r.value.direction == Right ==> r.value.collisionRange.x <= 0.0
    ensures Overlap(p, o) && CentreDx(p, o) == 0.0 && CentreDy(p, o) == 0.0 ==>
      r == Some(CollisionInfo(Vec2(0.0, -HalfHeights(p, o)), Down))
  {
    var w := HalfWidths(p, o);
    var h := HalfHeights(p, o);
    var dx := CentreDx(p, o);
    var dy := CentreDy(p, o);
    if Abs(dx) <= w && Abs(dy) <= h then Some(Resolve(w, h, dx, dy)) else Option.None
  }

  /** The four-way case split of `checkCollision` on overlapping rectangles. */
  function Resolve(w: real, h: real, dx: real, dy: real): CollisionInfo {
    var wy := w * dy;
    var hx := h * dx;
    if wy > hx then
      if wy > -hx then CollisionInfo(Vec2(0.0, h - Abs(dy)), Up)
      else CollisionInfo(Vec2(-(w - Abs(dx)), 0.0), Right)
    else
      if wy > -hx then CollisionInfo(Vec2(w - Abs(dx), 0.0), Left)
      else CollisionInfo(Vec2(0.0, -(h - Abs(dy))), Down)
  }

  /** The four cases of `CheckCollision`, as sign conditions on `w*dy` and `h*dx`. */
  lemma {:induction false} LabelSigns(p: Transform, o: Transform)
    requires PositiveSize(p) && PositiveSize(o) && Overlap(p, o)
    ensures var d := CheckCollision(p, o).value.direction;
      (d == Up ==> CentreDy(p, o) > 0.0) &&
      (d == Down ==> CentreDy(p, o) <= 0.0) &&
      (d == Left ==> CentreDx(p, o) > 0.0) &&
      (d == Right ==> CentreDx(p, o) < 0.0)
  {
    var w, h := HalfWidths(p, o), HalfHeights(p, o);
    var dx, dy := CentreDx(p, o), CentreDy(p, o);
    var wy, hx := w * dy, h * dx;
    var d := CheckCollision(p, o).value.direction;
    if d == Up {
      // wy > |hx| >= 0 and w > 0
      assert wy > 0.0;
      PositiveFactor(w, dy);
    } else if d == Down {
      assert wy <= 0.0;
      NonPositiveFactor(w, dy);
    } else if d == Left {
      assert hx > 0.0;
      PositiveFactor(h, dx);
    } else if d == Right {
      assert hx < 0.0;
      NegativeFactor(h, dx);
    }
  }

  lemma PositiveFactor(k: real, v: real)
    requires k > 0.0 && k * v > 0.0
    ensures v > 0.0
  {
  }

  lemma NonPositiveFactor(k: real, v: real)
    requires k > 0.0 && k * v <= 0.0
    ensures v <= 0.0
  {
  }

  lemma NegativeFactor(k: real, v: real)
    requires k > 0.0 && k * v < 0.0
    ensures v < 0.0
  {
  }

  /** After a push labelled `d`, rectangle `a` touches `b` on the side that `d` names. */
  predicate EdgeAdjacent(a: Transform, b: Transform, d: Direction) {
    (d == Up ==> CentreDy(a, b) == HalfHeights(a, b)) &&
    (d == Down ==> CentreDy(a, b) == -HalfHeights(a, b)) &&
    (d == Left ==> CentreDx(a, b) == HalfWidths(a, b)) &&
    (d == Right ==> CentreDx(a, b) == -HalfWidths(a, b))
  }

  /**
   After the push the two rectangles are exactly edge-adjacent on the resolved
   axis and the centre distance on the other axis is unchanged.
   */
  lemma {:induction false} CorrectionMakesEdgeAdjacent(p: Transform, o: Transform)
    requires PositiveSize(p) && PositiveSize(o) && Overlap(p, o)
    ensures var info := CheckCollision(p, o).value;
      var m := Moved(p, info.collisionRange);
      EdgeAdjacent(m, o, info.direction) &&
      (Vertical(info.direction) ==> CentreDx(m, o) == CentreDx(p, o)) &&
      (Horizontal(info.direction) ==> CentreDy(m, o) == CentreDy(p, o))
  {
    LabelSigns(p, o);
  }

  /**
   The resolved axis is the one of least penetration relative to the half-extent
   sums: for a vertical push h*|dx| <= w*|dy|, for a horizontal one w*|dy| <= h*|dx|.
   */
  lemma {:induction false} CorrectionIsMinimal(p: Transform, o: Transform)
    requires PositiveSize(p) && PositiveSize(o) && Overlap(p, o)
    ensures var d := CheckCollision(p, o).value.direction;
      var w, h := HalfWidths(p, o), HalfHeights(p, o);
      var dx, dy := CentreDx(p, o), CentreDy(p, o);
      (Vertical(d) ==> h * Abs(dx) <= w * Abs(dy)) &&
      (Horizontal(d) ==> w * Abs(dy) <= h * Abs(dx))
  {
    var w, h := HalfWidths(p, o), HalfHeights(p, o);
    var dx, dy := CentreDx(p, o), CentreDy(p, o);
    ScaledAbs(w, dy);
    ScaledAbs(h, dx);
  }

  lemma ScaledAbs(k: real, v: real)
    requires k > 0.0
    ensures Abs(k * v) == k * Abs(v)
  {
    if v < 0.0 {
      assert k * v < 0.0;
    } else {
      assert k * v >= 0.0;
    }
  }

  /**
   The correction is a projection: the moved rectangle still touches the other
   one (the test is inclusive) and checking again yields a zero push.
   */
  lemma {:induction false} CorrectionIsIdempotent(p: Transform, o: Transform)
    requires PositiveSize(p) && PositiveSize(o) && Overlap(p, o)
    ensures var m := Moved(p, CheckCollision(p, o).value.collisionRange);
      CheckCollision(m, o).Some? && CheckCollision(m, o).value.collisionRange == Vec2(0.0, 0.0)
  {
    CorrectionMakesEdgeAdjacent(p, o);
    var m := Moved(p, CheckCollision(p, o).value.collisionRange);
    assert HalfWidths(m, o) == HalfWidths(p, o) && HalfHeights(m, o) == HalfHeights(p, o);
    ResolveOnEdge(HalfWidths(p, o), HalfHeights(p, o), CentreDx(m, o), CentreDy(m, o));
  }

  /** On an edge (|dx| == w or |dy| == h) the push has length zero. */
  lemma ResolveOnEdge(w: real, h: real, dx: real, dy: real)
    requires w > 0.0 && h > 0.0 && Abs(dx) <= w && Abs(dy) <= h
    requires Abs(dx) == w || Abs(dy) == h
    ensures Resolve(w, h, dx, dy).collisionRange == Vec2(0.0, 0.0)
  {
    var wy, hx := w * dy, h * dx;
    ScaledAbs(w, dy);
    ScaledAbs(h, dx);
    if Abs(dy) == h {
      assert Abs(wy) == w * h;
      assert Abs(hx) <= h * w by { MonotoneProduct(h, Abs(dx), w); }
    } else {
      assert Abs(hx) == h * w;
      assert Abs(wy) <= w * h by { MonotoneProduct(w, Abs(dy), h); }
    }
  }

  lemma MonotoneProduct(k: real, a: real, b: real)
    requires k > 0.0 && a <= b
    ensures k * a <= k * b
  {
  }
}
