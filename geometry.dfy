/** The remesher's 3-D vectors. The add-on computes with `mathutils`
    vectors in floating point; the model takes every vector routine as a
    parameter (`Numerics`), so that nothing depends on how rounding falls,
    and states the geometric facts that hold when those routines are the
    exact operations over the reals. */
module Geometry {

  datatype Vec3 = Vec3(x: real, y: real, z: real)

  /** The `mathutils.Vector` operations the remesher uses: `a + b`, `a - b`,
      `v * s`, `v / s`, `a.dot(b)`, `v.normalized()` and `v.length`. */
  datatype Numerics = Numerics(
    add: (Vec3, Vec3) -> Vec3,
    sub: (Vec3, Vec3) -> Vec3,
    scale: (Vec3, real) -> Vec3,
    divide: (Vec3, real) -> Vec3,
    dot: (Vec3, Vec3) -> real,
    normalized: Vec3 -> Vec3,
    length: Vec3 -> real)

  function Abs(r: real): (a: real)
    ensures a >= 0.0 && (a == r || a == -r)
  {
    if r < 0.0 then -r else r
  }

  /** `(a + b) / 2` */
  function Midpoint(num: Numerics, a: Vec3, b: Vec3): Vec3 {
    num.divide(num.add(a, b), 2.0)
  }

  /** `d - d.dot(n) * n`: `d` without its component along `n`. */
  function Tangential(num: Numerics, d: Vec3, n: Vec3): Vec3 {
    num.sub(d, num.scale(n, num.dot(d, n)))
  }

  // Exact arithmetic over the reals.

  function Add(a: Vec3, b: Vec3): Vec3 {
    Vec3(a.x + b.x, a.y + b.y, a.z + b.z)
  }

  function Sub(a: Vec3, b: Vec3): Vec3 {
    Vec3(a.x - b.x, a.y - b.y, a.z - b.z)
  }

  function Scale(a: Vec3, s: real): Vec3 {
    Vec3(a.x * s, a.y * s, a.z * s)
  }

  function Dot(a: Vec3, b: Vec3): real {
    a.x * b.x + a.y * b.y + a.z * b.z
  }

  /** The vector routines compute exactly (normalisation and length, which
      need a square root, are left free). */
  ghost predicate Exact(num: Numerics) {
    && (forall a, b :: num.add(a, b) == Add(a, b))
    && (forall a, b :: num.sub(a, b) == Sub(a, b))
    && (forall a, s :: num.scale(a, s) == Scale(a, s))
    && (forall a, s :: s != 0.0 ==> num.divide(a, s) == Scale(a, 1.0 / s))
    && (forall a, b :: num.dot(a, b) == Dot(a, b))
  }

  /** With exact arithmetic the midpoint lies halfway: it is as far from `a`
      as `b` is from it. */
  lemma MidpointHalfway(num: Numerics, a: Vec3, b: Vec3)
    ensures Exact(num) ==> Sub(Midpoint(num, a, b), a) == Sub(b, Midpoint(num, a, b))
  {
    if Exact(num) {
      var c := Midpoint(num, a, b);
      assert c == Scale(Add(a, b), 1.0 / 2.0);
      assert c == Vec3((a.x + b.x) / 2.0, (a.y + b.y) / 2.0, (a.z + b.z) / 2.0);
    }
  }

  /** With exact arithmetic and a unit normal the tangential part has no
      normal component left. */
  lemma TangentialIsOrthogonal(num: Numerics, d: Vec3, n: Vec3)
    requires Exact(num) && Dot(n, n) == 1.0
    ensures Dot(Tangential(num, d, n), n) == 0.0
  {
    var s := Dot(d, n);
    calc {
      Dot(Tangential(num, d, n), n);
      Dot(Sub(d, Scale(n, s)), n);
      (d.x - n.x * s) * n.x + (d.y - n.y * s) * n.y + (d.z - n.z * s) * n.z;
      s - s * (n.x * n.x + n.y * n.y + n.z * n.z);
      s - s * 1.0;
    }
  }
}
