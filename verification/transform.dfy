/**
 Scale-and-translate world matrices, the only kind of transform the scene
 orchestrator builds without a rotation: the floor, the rocket and every tree
 instance. A matrix of this kind maps a point p to scale * p + offset,
 component by component.

 DirectXMath uses row vectors: a point is the row [x y z 1] and is transformed
 by multiplying it on the LEFT of a matrix, so in XMMatrixMultiply(A, B) the
 transform A is applied first. `Multiply` keeps that argument order, and
 `Mat4`/`MatMul` below embed the model in full 4x4 row-vector matrices to show
 that `Multiply` is exactly XMMatrixMultiply on such matrices.
 */
module Transform {

  datatype Vec3 = Vec3(x: real, y: real, z: real)

  /** p maps to scale * p + offset, componentwise. */
  datatype Affine = Affine(scale: Vec3, offset: Vec3)

  function Mul(a: Vec3, b: Vec3): Vec3 {
    Vec3(a.x * b.x, a.y * b.y, a.z * b.z)
  }

  function Add(a: Vec3, b: Vec3): Vec3 {
    Vec3(a.x + b.x, a.y + b.y, a.z + b.z)
  }

  /** The image of point p under m. */
  function Apply(m: Affine, p: Vec3): Vec3 {
    Add(Mul(m.scale, p), m.offset)
  }

  const Identity: Affine := Affine(Vec3(1.0, 1.0, 1.0), Vec3(0.0, 0.0, 0.0))

  /** XMMatrixScaling(sx, sy, sz). */
  function Scaling(sx: real, sy: real, sz: real): (r: Affine)
    ensures ToMatrix(r) == Mat4(Row(sx, 0.0, 0.0, 0.0), Row(0.0, sy, 0.0, 0.0),
                                Row(0.0, 0.0, sz, 0.0), Row(0.0, 0.0, 0.0, 1.0))
  {
    Affine(Vec3(sx, sy, sz), Vec3(0.0, 0.0, 0.0))
  }

  /** XMMatrixTranslation(tx, ty, tz). */
  function Translation(tx: real, ty: real, tz: real): (r: Affine)
    ensures ToMatrix(r) == Mat4(Row(1.0, 0.0, 0.0, 0.0), Row(0.0, 1.0, 0.0, 0.0),
                                Row(0.0, 0.0, 1.0, 0.0), Row(tx, ty, tz, 1.0))
  {
    Affine(Vec3(1.0, 1.0, 1.0), Vec3(tx, ty, tz))
  }

  /** XMMatrixMultiply(a, b) on scale/translate matrices: a is applied first, then b. */
  function Multiply(a: Affine, b: Affine): Affine {
    Affine(Mul(a.scale, b.scale), Add(Mul(a.offset, b.scale), b.offset))
  }

  /** The row-vector convention: the product moves p first by a, then by b. */
  lemma MultiplyAppliesLeftFirst(a: Affine, b: Affine, p: Vec3)
    ensures Apply(Multiply(a, b), p) == Apply(b, Apply(a, p))
  {
  }

  lemma ScalingAndTranslation(sx: real, sy: real, sz: real, tx: real, ty: real, tz: real, p: Vec3)
    ensures Apply(Scaling(sx, sy, sz), p) == Vec3(sx * p.x, sy * p.y, sz * p.z)
    ensures Apply(Translation(tx, ty, tz), p) == Vec3(p.x + tx, p.y + ty, p.z + tz)
  {
  }

  /** Two scale/translate matrices that move every point alike are the same matrix. */
  lemma Extensionality(a: Affine, b: Affine)
    requires forall p :: Apply(a, p) == Apply(b, p)
    ensures a == b
  {
    var o := Vec3(0.0, 0.0, 0.0);
    var u := Vec3(1.0, 1.0, 1.0);
    assert Apply(a, o) == Apply(b, o);
    assert Apply(a, u) == Apply(b, u);
  }

  lemma IdentityIsNeutral(m: Affine)
    ensures Multiply(Identity, m) == m
    ensures Multiply(m, Identity) == m
    ensures forall p :: Apply(Identity, p) == p
  {
  }

  /** A base matrix equal to the identity contributes nothing to a product. */
  lemma IdentityFirst(base: Affine, m: Affine)
    ensures base == Identity ==> Multiply(base, m) == m
  {
  }

  /** A translation applied after m only adds to m's offset. */
  lemma TranslationAfter(m: Affine, tx: real, ty: real, tz: real)
    ensures Multiply(m, Translation(tx, ty, tz)) == Affine(m.scale, Vec3(m.offset.x + tx, m.offset.y + ty, m.offset.z + tz))
  {
  }

  /** m leaves every point where it is. */
  ghost predicate MovesNothing(m: Affine) {
    forall q :: Apply(m, q) == q
  }

  /** The identity matrix is the only scale/translate matrix that moves nothing. */
  lemma MovesNothingIffIdentity(m: Affine)
    ensures MovesNothing(m) <==> m == Identity
  {
    IdentityIsNeutral(m);
    if MovesNothing(m) {
      Extensionality(m, Identity);
    }
  }

  /** Chained XMMatrixMultiply calls may be regrouped. */
  lemma MultiplyAssociative(a: Affine, b: Affine, c: Affine)
    ensures Multiply(Multiply(a, b), c) == Multiply(a, Multiply(b, c))
  {
    forall p
      ensures Apply(Multiply(Multiply(a, b), c), p) == Apply(Multiply(a, Multiply(b, c)), p)
    {
      MultiplyAppliesLeftFirst(Multiply(a, b), c, p);
      MultiplyAppliesLeftFirst(a, b, p);
      MultiplyAppliesLeftFirst(a, Multiply(b, c), p);
      MultiplyAppliesLeftFirst(b, c, Apply(a, p));
    }
    Extensionality(Multiply(Multiply(a, b), c), Multiply(a, Multiply(b, c)));
  }

  lemma ProductNonZero(a: real, b: real)
    requires a != 0.0 && b != 0.0
    ensures a * b != 0.0
  {
    if a > 0.0 {
      if b > 0.0 { assert a * b > 0.0; } else { assert a * b < 0.0; }
    } else {
      if b > 0.0 { assert a * b < 0.0; } else { assert a * b > 0.0; }
    }
  }

  /** The order of composition matters: a uniform scaling by k != 1 followed by
      a non-zero translation differs from the translation followed by the scaling. */
  lemma OrderMatters(k: real, t: real)
    requires k != 1.0 && t != 0.0
    ensures Multiply(Scaling(k, k, k), Translation(t, 0.0, 0.0))
         != Multiply(Translation(t, 0.0, 0.0), Scaling(k, k, k))
  {
    var scaledFirst := Multiply(Scaling(k, k, k), Translation(t, 0.0, 0.0));
    var movedFirst := Multiply(Translation(t, 0.0, 0.0), Scaling(k, k, k));
    assert scaledFirst.offset.x == t;
    assert movedFirst.offset.x == t * k;
    ProductNonZero(t, k - 1.0);
    assert t * k - t == t * (k - 1.0);
  }

  // ---------------------------------------------------------------------------
  // 4x4 row-vector matrices, as DirectXMath stores them

  datatype Row = Row(c0: real, c1: real, c2: real, c3: real)
  datatype Mat4 = Mat4(r0: Row, r1: Row, r2: Row, r3: Row)

  function Dot(a: Row, b: Row): real {
    a.c0 * b.c0 + a.c1 * b.c1 + a.c2 * b.c2 + a.c3 * b.c3
  }

  function Column(m: Mat4, j: nat): Row
    requires j < 4
  {
    match j
    case 0 => Row(m.r0.c0, m.r1.c0, m.r2.c0, m.r3.c0)
    case 1 => Row(m.r0.c1, m.r1.c1, m.r2.c1, m.r3.c1)
    case 2 => Row(m.r0.c2, m.r1.c2, m.r2.c2, m.r3.c2)
    case _ => Row(m.r0.c3, m.r1.c3, m.r2.c3, m.r3.c3)
  }

  /** The row vector v times m. */
  function RowTimes(v: Row, m: Mat4): Row {
    Row(Dot(v, Column(m, 0)), Dot(v, Column(m, 1)), Dot(v, Column(m, 2)), Dot(v, Column(m, 3)))
  }

  /** The ordinary matrix product a * b, which XMMatrixMultiply(a, b) returns. */
  function MatMul(a: Mat4, b: Mat4): Mat4 {
    Mat4(RowTimes(a.r0, b), RowTimes(a.r1, b), RowTimes(a.r2, b), RowTimes(a.r3, b))
  }

  /** The 4x4 matrix DirectXMath holds for m: the scale on the diagonal and the
      offset in the fourth row. */
  function ToMatrix(m: Affine): Mat4 {
    Mat4(Row(m.scale.x, 0.0, 0.0, 0.0),
         Row(0.0, m.scale.y, 0.0, 0.0),
         Row(0.0, 0.0, m.scale.z, 0.0),
         Row(m.offset.x, m.offset.y, m.offset.z, 1.0))
  }

  /** The homogeneous point [p.x p.y p.z 1] transformed by m. */
  function TransformPoint(m: Mat4, p: Vec3): Row {
    RowTimes(Row(p.x, p.y, p.z, 1.0), m)
  }

  /** The embedded matrix moves points exactly as the scale/translate map does. */
  lemma ToMatrixTransformsLikeApply(m: Affine, p: Vec3)
    ensures TransformPoint(ToMatrix(m), p) == Row(Apply(m, p).x, Apply(m, p).y, Apply(m, p).z, 1.0)
  {
  }

  /** `Multiply` is XMMatrixMultiply on the embedded matrices, in the same argument order. */
  lemma MultiplyIsMatMul(a: Affine, b: Affine)
    ensures ToMatrix(Multiply(a, b)) == MatMul(ToMatrix(a), ToMatrix(b))
  {
  }
}
