/**
 * Rigid-transform (SE(3)) algebra over 4x4 homogeneous matrices, modelled
 * over exact reals: validity check, closed-form inverse, relative pose,
 * translation extraction and poses built from a translation and a quaternion.
 */
module Transforms {
  import opened Wrappers

  /** A numeric array of any shape; the validity check rejects every shape but 4x4. */
  type Matrix = seq<seq<real>>

  predicate Is4x4(t: Matrix) {
    |t| == 4 && forall i | 0 <= i < 4 :: |t[i]| == 4
  }

  const Identity: Matrix :=
    [[1.0, 0.0, 0.0, 0.0],
     [0.0, 1.0, 0.0, 0.0],
     [0.0, 0.0, 1.0, 0.0],
     [0.0, 0.0, 0.0, 1.0]]

  type Mat4 = t: Matrix | Is4x4(t) witness Identity

  /**
   * The ValueError raised for a matrix that fails the check, carrying the
   * matrix its message names: extract_displacement's "Transformation {T} is
   * invalid", compute_relative_pose's "Pose {a} is invalid", and
   * transform_inverse's "t is not a valid transform", which names none.
   */
  datatype TransformError =
    | InvalidTransform(transform: Matrix)
    | InvalidPose(pose: Matrix)
    | NotATransform

  /** The default `tolerance` of the validity check (absolute). */
  const DefaultTolerance: real := 0.001

  /** numpy.isclose's relative tolerance, which the check leaves at its default. */
  const RelativeTolerance: real := 0.00001

  function Abs(x: real): real {
    if x < 0.0 then -x else x
  }

  /** numpy.isclose(a, b, atol=atol): |a - b| <= atol + rtol * |b|. */
  predicate IsClose(a: real, b: real, atol: real) {
    Abs(a - b) <= atol + RelativeTolerance * Abs(b)
  }

  /** The dot product of two 3-vectors. */
  function Dot3(a0: real, a1: real, a2: real, b0: real, b1: real, b2: real): real {
    a0 * b0 + a1 * b1 + a2 * b2
  }

  /** The determinant of the 3x3 matrix with rows (a00 a01 a02), (a10 a11 a12), (a20 a21 a22). */
  function Det3(a00: real, a01: real, a02: real,
                a10: real, a11: real, a12: real,
                a20: real, a21: real, a22: real): real
  {
    a00 * (a11 * a22 - a12 * a21) - a01 * (a10 * a22 - a12 * a20) + a02 * (a10 * a21 - a11 * a20)
  }

  /**
   * The 3x3 matrix R = (a00 .. a22) is in SO(3), exactly: R^T R = I (its
   * columns are orthonormal), R R^T = I (its rows are) and det R = 1.
   */
  predicate Orthonormal(a00: real, a01: real, a02: real,
                        a10: real, a11: real, a12: real,
                        a20: real, a21: real, a22: real)
  {
    && Dot3(a00, a10, a20, a00, a10, a20) == 1.0
    && Dot3(a00, a10, a20, a01, a11, a21) == 0.0
    && Dot3(a00, a10, a20, a02, a12, a22) == 0.0
    && Dot3(a01, a11, a21, a00, a10, a20) == 0.0
    && Dot3(a01, a11, a21, a01, a11, a21) == 1.0
    && Dot3(a01, a11, a21, a02, a12, a22) == 0.0
    && Dot3(a02, a12, a22, a00, a10, a20) == 0.0
    && Dot3(a02, a12, a22, a01, a11, a21) == 0.0
    && Dot3(a02, a12, a22, a02, a12, a22) == 1.0
    && Dot3(a00, a01, a02, a00, a01, a02) == 1.0
    && Dot3(a00, a01, a02, a10, a11, a12) == 0.0
    && Dot3(a00, a01, a02, a20, a21, a22) == 0.0
    && Dot3(a10, a11, a12, a00, a01, a02) == 0.0
    && Dot3(a10, a11, a12, a10, a11, a12) == 1.0
    && Dot3(a10, a11, a12, a20, a21, a22) == 0.0
    && Dot3(a20, a21, a22, a00, a01, a02) == 0.0
    && Dot3(a20, a21, a22, a10, a11, a12) == 0.0
    && Dot3(a20, a21, a22, a20, a21, a22) == 1.0
    && Det3(a00, a01, a02, a10, a11, a12, a20, a21, a22) == 1.0
  }

  /**
   * The same nine comparisons and the determinant, each made by numpy.isclose
   * against the identity's entry (the identity is isclose's first argument).
   */
  predicate NearRotation(a00: real, a01: real, a02: real,
                         a10: real, a11: real, a12: real,
                         a20: real, a21: real, a22: real, tolerance: real)
  {
    && IsClose(1.0, Dot3(a00, a10, a20, a00, a10, a20), tolerance)
    && IsClose(0.0, Dot3(a00, a10, a20, a01, a11, a21), tolerance)
    && IsClose(0.0, Dot3(a00, a10, a20, a02, a12, a22), tolerance)
    && IsClose(0.0, Dot3(a01, a11, a21, a00, a10, a20), tolerance)
    && IsClose(1.0, Dot3(a01, a11, a21, a01, a11, a21), tolerance)
    && IsClose(0.0, Dot3(a01, a11, a21, a02, a12, a22), tolerance)
    && IsClose(0.0, Dot3(a02, a12, a22, a00, a10, a20), tolerance)
    && IsClose(0.0, Dot3(a02, a12, a22, a01, a11, a21), tolerance)
    && IsClose(1.0, Dot3(a02, a12, a22, a02, a12, a22), tolerance)
    && IsClose(1.0, Dot3(a00, a01, a02, a00, a01, a02), tolerance)
    && IsClose(0.0, Dot3(a00, a01, a02, a10, a11, a12), tolerance)
    && IsClose(0.0, Dot3(a00, a01, a02, a20, a21, a22), tolerance)
    && IsClose(0.0, Dot3(a10, a11, a12, a00, a01, a02), tolerance)
    && IsClose(1.0, Dot3(a10, a11, a12, a10, a11, a12), tolerance)
    && IsClose(0.0, Dot3(a10, a11, a12, a20, a21, a22), tolerance)
    && IsClose(0.0, Dot3(a20, a21, a22, a00, a01, a02), tolerance)
    && IsClose(0.0, Dot3(a20, a21, a22, a10, a11, a12), tolerance)
    && IsClose(1.0, Dot3(a20, a21, a22, a20, a21, a22), tolerance)
    && IsClose(Det3(a00, a01, a02, a10, a11, a12, a20, a21, a22), 1.0, tolerance)
  }

  /** An exact rotation passes every comparison at any non-negative tolerance. */
  lemma OrthonormalIsNear(a00: real, a01: real, a02: real,
                          a10: real, a11: real, a12: real,
                          a20: real, a21: real, a22: real, tolerance: real)
    requires Orthonormal(a00, a01, a02, a10, a11, a12, a20, a21, a22) && tolerance >= 0.0
    ensures NearRotation(a00, a01, a02, a10, a11, a12, a20, a21, a22, tolerance)
  {
  }

  /** The transpose of a rotation is a rotation. */
  lemma OrthonormalTranspose(a00: real, a01: real, a02: real,
                             a10: real, a11: real, a12: real,
                             a20: real, a21: real, a22: real)
    requires Orthonormal(a00, a01, a02, a10, a11, a12, a20, a21, a22)
    ensures Orthonormal(a00, a10, a20, a01, a11, a21, a02, a12, a22)
  {
    assert Det3(a00, a10, a20, a01, a11, a21, a02, a12, a22) == Det3(a00, a01, a02, a10, a11, a12, a20, a21, a22);
  }

  /** (a . u) (b . v), multiplied out. */
  lemma ExpandPair(a0: real, a1: real, a2: real, u0: real, u1: real, u2: real,
                   b0: real, b1: real, b2: real, v0: real, v1: real, v2: real)
    ensures Dot3(a0, a1, a2, u0, u1, u2) * Dot3(b0, b1, b2, v0, v1, v2)
         == (a0 * b0) * (u0 * v0) + (a0 * b1) * (u0 * v1) + (a0 * b2) * (u0 * v2)
            + (a1 * b0) * (u1 * v0) + (a1 * b1) * (u1 * v1) + (a1 * b2) * (u1 * v2)
            + (a2 * b0) * (u2 * v0) + (a2 * b1) * (u2 * v1) + (a2 * b2) * (u2 * v2)
  {
  }

  /** g s, for g the dot product of a and b, multiplied out. */
  lemma ExpandWeighted(a0: real, a1: real, a2: real, b0: real, b1: real, b2: real, g: real, s: real)
    requires Dot3(a0, a1, a2, b0, b1, b2) == g
    ensures g * s == (a0 * b0) * s + (a1 * b1) * s + (a2 * b2) * s
  {
  }

  /** A rotation X preserves dot products: (X u) . (X v) == u . v. */
  lemma RotationPreservesDot(x00: real, x01: real, x02: real,
                             x10: real, x11: real, x12: real,
                             x20: real, x21: real, x22: real,
                             u0: real, u1: real, u2: real, v0: real, v1: real, v2: real)
    requires Orthonormal(x00, x01, x02, x10, x11, x12, x20, x21, x22)
    ensures Dot3(Dot3(x00, x01, x02, u0, u1, u2), Dot3(x10, x11, x12, u0, u1, u2), Dot3(x20, x21, x22, u0, u1, u2),
                 Dot3(x00, x01, x02, v0, v1, v2), Dot3(x10, x11, x12, v0, v1, v2), Dot3(x20, x21, x22, v0, v1, v2))
         == Dot3(u0, u1, u2, v0, v1, v2)
  {
    ExpandPair(x00, x01, x02, u0, u1, u2, x00, x01, x02, v0, v1, v2);
    ExpandPair(x10, x11, x12, u0, u1, u2, x10, x11, x12, v0, v1, v2);
    ExpandPair(x20, x21, x22, u0, u1, u2, x20, x21, x22, v0, v1, v2);
    ExpandWeighted(x00, x10, x20, x00, x10, x20, 1.0, u0 * v0);
    ExpandWeighted(x00, x10, x20, x01, x11, x21, 0.0, u0 * v1);
    ExpandWeighted(x00, x10, x20, x02, x12, x22, 0.0, u0 * v2);
    ExpandWeighted(x01, x11, x21, x00, x10, x20, 0.0, u1 * v0);
    ExpandWeighted(x01, x11, x21, x01, x11, x21, 1.0, u1 * v1);
    ExpandWeighted(x01, x11, x21, x02, x12, x22, 0.0, u1 * v2);
    ExpandWeighted(x02, x12, x22, x00, x10, x20, 0.0, u2 * v0);
    ExpandWeighted(x02, x12, x22, x01, x11, x21, 0.0, u2 * v1);
    ExpandWeighted(x02, x12, x22, x02, x12, x22, 1.0, u2 * v2);
  }

  /** (a . u) (b . v) (c . w), multiplied out. */
  lemma ExpandTriple(a0: real, a1: real, a2: real, u0: real, u1: real, u2: real,
                     b0: real, b1: real, b2: real, v0: real, v1: real, v2: real,
                     c0: real, c1: real, c2: real, w0: real, w1: real, w2: real)
    ensures Dot3(a0, a1, a2, u0, u1, u2) * Dot3(b0, b1, b2, v0, v1, v2) * Dot3(c0, c1, c2, w0, w1, w2)
         == (a0 * b0 * c0) * (u0 * v0 * w0) + (a0 * b0 * c1) * (u0 * v0 * w1) + (a0 * b0 * c2) * (u0 * v0 * w2)
            + (a0 * b1 * c0) * (u0 * v1 * w0) + (a0 * b1 * c1) * (u0 * v1 * w1) + (a0 * b1 * c2) * (u0 * v1 * w2)
            + (a0 * b2 * c0) * (u0 * v2 * w0) + (a0 * b2 * c1) * (u0 * v2 * w1) + (a0 * b2 * c2) * (u0 * v2 * w2)
            + (a1 * b0 * c0) * (u1 * v0 * w0) + (a1 * b0 * c1) * (u1 * v0 * w1) + (a1 * b0 * c2) * (u1 * v0 * w2)
            + (a1 * b1 * c0) * (u1 * v1 * w0) + (a1 * b1 * c1) * (u1 * v1 * w1) + (a1 * b1 * c2) * (u1 * v1 * w2)
            + (a1 * b2 * c0) * (u1 * v2 * w0) + (a1 * b2 * c1) * (u1 * v2 * w1) + (a1 * b2 * c2) * (u1 * v2 * w2)
            + (a2 * b0 * c0) * (u2 * v0 * w0) + (a2 * b0 * c1) * (u2 * v0 * w1) + (a2 * b0 * c2) * (u2 * v0 * w2)
            + (a2 * b1 * c0) * (u2 * v1 * w0) + (a2 * b1 * c1) * (u2 * v1 * w1) + (a2 * b1 * c2) * (u2 * v1 * w2)
            + (a2 * b2 * c0) * (u2 * v2 * w0) + (a2 * b2 * c1) * (u2 * v2 * w1) + (a2 * b2 * c2) * (u2 * v2 * w2)
  {
  }

  /** The determinant as the signed sum over the six permutations. */
  lemma DetTerms(a00: real, a01: real, a02: real,
                 a10: real, a11: real, a12: real,
                 a20: real, a21: real, a22: real)
    ensures Det3(a00, a01, a02, a10, a11, a12, a20, a21, a22)
         == a00 * a11 * a22 - a00 * a12 * a21 - a01 * a10 * a22 + a01 * a12 * a20 + a02 * a10 * a21 - a02 * a11 * a20
  {
  }

  /** The product of two such signed sums of six terms, multiplied out. */
  lemma ExpandSigned(p0: real, p1: real, p2: real, p3: real, p4: real, p5: real,
                     q0: real, q1: real, q2: real, q3: real, q4: real, q5: real)
    ensures (p0 - p1 - p2 + p3 + p4 - p5) * (q0 - q1 - q2 + q3 + q4 - q5)
         == p0 * q0 - p0 * q1 - p0 * q2 + p0 * q3 + p0 * q4 - p0 * q5
            - p1 * q0 + p1 * q1 + p1 * q2 - p1 * q3 - p1 * q4 + p1 * q5
            - p2 * q0 + p2 * q1 + p2 * q2 - p2 * q3 - p2 * q4 + p2 * q5
            + p3 * q0 - p3 * q1 - p3 * q2 + p3 * q3 + p3 * q4 - p3 * q5
            + p4 * q0 - p4 * q1 - p4 * q2 + p4 * q3 + p4 * q4 - p4 * q5
            - p5 * q0 + p5 * q1 + p5 * q2 - p5 * q3 - p5 * q4 + p5 * q5
  {
  }

  /** det X det Y, multiplied out. */
  lemma ExpandDetProduct(x00: real, x01: real, x02: real,
                         x10: real, x11: real, x12: real,
                         x20: real, x21: real, x22: real,
                         y00: real, y01: real, y02: real,
                         y10: real, y11: real, y12: real,
                         y20: real, y21: real, y22: real)
    ensures Det3(x00, x01, x02, x10, x11, x12, x20, x21, x22) * Det3(y00, y01, y02, y10, y11, y12, y20, y21, y22)
         == (x00 * x11 * x22) * (y00 * y11 * y22) - (x00 * x11 * x22) * (y00 * y12 * y21) - (x00 * x11 * x22) * (y01 * y10 * y22)
            + (x00 * x11 * x22) * (y01 * y12 * y20) + (x00 * x11 * x22) * (y02 * y10 * y21) - (x00 * x11 * x22) * (y02 * y11 * y20)
            - (x00 * x12 * x21) * (y00 * y11 * y22) + (x00 * x12 * x21) * (y00 * y12 * y21) + (x00 * x12 * x21) * (y01 * y10 * y22)
            - (x00 * x12 * x21) * (y01 * y12 * y20) - (x00 * x12 * x21) * (y02 * y10 * y21) + (x00 * x12 * x21) * (y02 * y11 * y20)
            - (x01 * x10 * x22) * (y00 * y11 * y22) + (x01 * x10 * x22) * (y00 * y12 * y21) + (x01 * x10 * x22) * (y01 * y10 * y22)
            - (x01 * x10 * x22) * (y01 * y12 * y20) - (x01 * x10 * x22) * (y02 * y10 * y21) + (x01 * x10 * x22) * (y02 * y11 * y20)
            + (x01 * x12 * x20) * (y00 * y11 * y22) - (x01 * x12 * x20) * (y00 * y12 * y21) - (x01 * x12 * x20) * (y01 * y10 * y22)
            + (x01 * x12 * x20) * (y01 * y12 * y20) + (x01 * x12 * x20) * (y02 * y10 * y21) - (x01 * x12 * x20) * (y02 * y11 * y20)
            + (x02 * x10 * x21) * (y00 * y11 * y22) - (x02 * x10 * x21) * (y00 * y12 * y21) - (x02 * x10 * x21) * (y01 * y10 * y22)
            + (x02 * x10 * x21) * (y01 * y12 * y20) + (x02 * x10 * x21) * (y02 * y10 * y21) - (x02 * x10 * x21) * (y02 * y11 * y20)
            - (x02 * x11 * x20) * (y00 * y11 * y22) + (x02 * x11 * x20) * (y00 * y12 * y21) + (x02 * x11 * x20) * (y01 * y10 * y22)
            - (x02 * x11 * x20) * (y01 * y12 * y20) - (x02 * x11 * x20) * (y02 * y10 * y21) + (x02 * x11 * x20) * (y02 * y11 * y20)
  {
    DetTerms(x00, x01, x02, x10, x11, x12, x20, x21, x22);
    DetTerms(y00, y01, y02, y10, y11, y12, y20, y21, y22);
    ExpandSigned(x00 * x11 * x22, x00 * x12 * x21, x01 * x10 * x22, x01 * x12 * x20, x02 * x10 * x21, x02 * x11 * x20,
                 y00 * y11 * y22, y00 * y12 * y21, y01 * y10 * y22, y01 * y12 * y20, y02 * y10 * y21, y02 * y11 * y20);
  }

  /** det(X Y) == det X det Y. */
  lemma DetProduct(x00: real, x01: real, x02: real,
                   x10: real, x11: real, x12: real,
                   x20: real, x21: real, x22: real,
                   y00: real, y01: real, y02: real,
                   y10: real, y11: real, y12: real,
                   y20: real, y21: real, y22: real)
    ensures Det3(Dot3(x00, x01, x02, y00, y10, y20), Dot3(x00, x01, x02, y01, y11, y21), Dot3(x00, x01, x02, y02, y12, y22),
                 Dot3(x10, x11, x12, y00, y10, y20), Dot3(x10, x11, x12, y01, y11, y21), Dot3(x10, x11, x12, y02, y12, y22),
                 Dot3(x20, x21, x22, y00, y10, y20), Dot3(x20, x21, x22, y01, y11, y21), Dot3(x20, x21, x22, y02, y12, y22))
         == Det3(x00, x01, x02, x10, x11, x12, x20, x21, x22) * Det3(y00, y01, y02, y10, y11, y12, y20, y21, y22)
  {
    DetTerms(Dot3(x00, x01, x02, y00, y10, y20), Dot3(x00, x01, x02, y01, y11, y21), Dot3(x00, x01, x02, y02, y12, y22), Dot3(x10, x11, x12, y00, y10, y20), Dot3(x10, x11, x12, y01, y11, y21), Dot3(x10, x11, x12, y02, y12, y22), Dot3(x20, x21, x22, y00, y10, y20), Dot3(x20, x21, x22, y01, y11, y21), Dot3(x20, x21, x22, y02, y12, y22));
    ExpandTriple(x00, x01, x02, y00, y10, y20,
                 x10, x11, x12, y01, y11, y21,
                 x20, x21, x22, y02, y12, y22);
    ExpandTriple(x00, x01, x02, y00, y10, y20,
                 x10, x11, x12, y02, y12, y22,
                 x20, x21, x22, y01, y11, y21);
    ExpandTriple(x00, x01, x02, y01, y11, y21,
                 x10, x11, x12, y00, y10, y20,
                 x20, x21, x22, y02, y12, y22);
    ExpandTriple(x00, x01, x02, y01, y11, y21,
                 x10, x11, x12, y02, y12, y22,
                 x20, x21, x22, y00, y10, y20);
    ExpandTriple(x00, x01, x02, y02, y12, y22,
                 x10, x11, x12, y00, y10, y20,
                 x20, x21, x22, y01, y11, y21);
    ExpandTriple(x00, x01, x02, y02, y12, y22,
                 x10, x11, x12, y01, y11, y21,
                 x20, x21, x22, y00, y10, y20);
    ExpandDetProduct(x00, x01, x02, x10, x11, x12, x20, x21, x22, y00, y01, y02, y10, y11, y12, y20, y21, y22);
  }

  /** The matrix has (at least) a 3x3 upper-left block. */
  predicate HasBlock(t: Matrix) {
    |t| >= 3 && forall i | 0 <= i < 3 :: |t[i]| >= 3
  }

  /** The upper-left 3x3 block is a rotation, exactly. */
  predicate IsRotation(t: Matrix)
    requires HasBlock(t)
  {
    Orthonormal(t[0][0], t[0][1], t[0][2], t[1][0], t[1][1], t[1][2], t[2][0], t[2][1], t[2][2])
  }

  /** An exact SE(3) pose: 4x4, rotation block in SO(3), bottom row [0, 0, 0, 1]. */
  predicate IsRigid(t: Matrix) {
    Is4x4(t) && IsRotation(t) && t[3] == [0.0, 0.0, 0.0, 1.0]
  }

  /**
   * transform_is_valid: the shape is 4x4, R^T R and R R^T are close to the
   * identity, det R is close to one and the bottom row is close to [0, 0, 0, 1],
   * each comparison made by numpy.isclose with absolute tolerance `tolerance`.
   */
  predicate TransformIsValid(t: Matrix, tolerance: real) {
    && Is4x4(t)
    && NearRotation(t[0][0], t[0][1], t[0][2], t[1][0], t[1][1], t[1][2], t[2][0], t[2][1], t[2][2], tolerance)
    && IsClose(t[3][0], 0.0, tolerance) && IsClose(t[3][1], 0.0, tolerance) && IsClose(t[3][2], 0.0, tolerance)
    && IsClose(t[3][3], 1.0, tolerance)
  }

  /** A shape other than 4x4 is never a valid transform, whatever the tolerance. */
  lemma WrongShapeIsInvalid(t: Matrix, tolerance: real)
    requires |t| != 4 || exists i | 0 <= i < |t| :: |t[i]| != 4
    ensures !TransformIsValid(t, tolerance)
  {
  }

  /** An exact SE(3) pose passes the check for every non-negative tolerance. */
  lemma RigidIsValid(t: Matrix, tolerance: real)
    requires IsRigid(t) && tolerance >= 0.0
    ensures TransformIsValid(t, tolerance)
  {
    OrthonormalIsNear(t[0][0], t[0][1], t[0][2], t[1][0], t[1][1], t[1][2], t[2][0], t[2][1], t[2][2], tolerance);
    assert t[3][0] == 0.0 && t[3][1] == 0.0 && t[3][2] == 0.0 && t[3][3] == 1.0;
  }

  /** [R^T, -R^T p; 0 0 0 1] for t = [R, p; 0 0 0 1]. */
  function InverseOf(t: Mat4): Mat4 {
    [[t[0][0], t[1][0], t[2][0], -Dot3(t[0][0], t[1][0], t[2][0], t[0][3], t[1][3], t[2][3])],
     [t[0][1], t[1][1], t[2][1], -Dot3(t[0][1], t[1][1], t[2][1], t[0][3], t[1][3], t[2][3])],
     [t[0][2], t[1][2], t[2][2], -Dot3(t[0][2], t[1][2], t[2][2], t[0][3], t[1][3], t[2][3])],
     [0.0, 0.0, 0.0, 1.0]]
  }

  /**
   * transform_inverse: raises on a matrix that fails the check; otherwise the
   * rotation block is transposed, the translation becomes -R^T p and the bottom
   * row is exactly [0, 0, 0, 1].
   */
  function TransformInverse(t: Matrix): (r: Result<Mat4, TransformError>)
    ensures r.Err? <==> !TransformIsValid(t, DefaultTolerance)
    ensures r.Err? ==> r.error == NotATransform
    ensures r.Ok? ==> forall i, j | 0 <= i < 3 && 0 <= j < 3 :: r.value[i][j] == t[j][i]
    ensures r.Ok? ==> forall i | 0 <= i < 3 ::
      r.value[i][3] == -(t[0][i] * t[0][3] + t[1][i] * t[1][3] + t[2][i] * t[2][3])
    ensures r.Ok? ==> r.value[3] == [0.0, 0.0, 0.0, 1.0]
  {
    if !TransformIsValid(t, DefaultTolerance) then Err(NotATransform) else Ok(InverseOf(t))
  }

  /** Entry (i, j) of the matrix product a b. */
  function Dot(a: Mat4, b: Mat4, i: nat, j: nat): real
    requires i < 4 && j < 4
  {
    a[i][0] * b[0][j] + a[i][1] * b[1][j] + a[i][2] * b[2][j] + a[i][3] * b[3][j]
  }

  function ProductRow(a: Mat4, b: Mat4, i: nat): seq<real>
    requires i < 4
  {
    [Dot(a, b, i, 0), Dot(a, b, i, 1), Dot(a, b, i, 2), Dot(a, b, i, 3)]
  }

  /** The matrix product a @ b. */
  function Mul(a: Mat4, b: Mat4): (c: Mat4)
    ensures forall i, j | 0 <= i < 4 && 0 <= j < 4 :: c[i][j] == Dot(a, b, i, j)
  {
    [ProductRow(a, b, 0), ProductRow(a, b, 1), ProductRow(a, b, 2), ProductRow(a, b, 3)]
  }

  /**
   * compute_relative_pose: the pose of b in the frame of a (aTb from wTa and
   * wTb), raising when either argument fails the check.
   */
  function ComputeRelativePose(a: Matrix, b: Matrix): (r: Result<Mat4, TransformError>)
    ensures r.Err? <==> !TransformIsValid(a, DefaultTolerance) || !TransformIsValid(b, DefaultTolerance)
    ensures r.Err? ==> r.error == InvalidPose(if TransformIsValid(a, DefaultTolerance) then b else a)
    ensures r.Ok? ==> TransformInverse(a).Ok? && r.value == Mul(TransformInverse(a).value, b)
  {
    if !TransformIsValid(a, DefaultTolerance) then Err(InvalidPose(a))
    else if !TransformIsValid(b, DefaultTolerance) then Err(InvalidPose(b))
    else
      var aInv := TransformInverse(a).value;
      Ok(Mul(aInv, b))
  }

  /** extract_displacement: the first three entries of the last column. */
  function ExtractDisplacement(t: Matrix): (r: Result<seq<real>, TransformError>)
    ensures r.Err? <==> !TransformIsValid(t, DefaultTolerance)
    ensures r.Err? ==> r.error == InvalidTransform(t)
    ensures r.Ok? ==> |r.value| == 3 && forall i | 0 <= i < 3 :: r.value[i] == t[i][3]
  {
    if !TransformIsValid(t, DefaultTolerance) then Err(InvalidTransform(t))
    else Ok([t[0][3], t[1][3], t[2][3]])
  }


  /** A 4x4 matrix is the display of its own entries. */
  lemma Mat4Literal(t: Mat4)
    ensures t == [[t[0][0], t[0][1], t[0][2], t[0][3]],
                  [t[1][0], t[1][1], t[1][2], t[1][3]],
                  [t[2][0], t[2][1], t[2][2], t[2][3]],
                  [t[3][0], t[3][1], t[3][2], t[3][3]]]
  {
    assert t[0] == [t[0][0], t[0][1], t[0][2], t[0][3]];
    assert t[1] == [t[1][0], t[1][1], t[1][2], t[1][3]];
    assert t[2] == [t[2][0], t[2][1], t[2][2], t[2][3]];
    assert t[3] == [t[3][0], t[3][1], t[3][2], t[3][3]];
    assert t == [t[0], t[1], t[2], t[3]];
  }

  /** Two 4x4 matrices with the same entries are equal. */
  lemma Mat4Equal(a: Mat4, b: Mat4)
    requires && a[0][0] == b[0][0] && a[0][1] == b[0][1] && a[0][2] == b[0][2] && a[0][3] == b[0][3]
             && a[1][0] == b[1][0] && a[1][1] == b[1][1] && a[1][2] == b[1][2] && a[1][3] == b[1][3]
             && a[2][0] == b[2][0] && a[2][1] == b[2][1] && a[2][2] == b[2][2] && a[2][3] == b[2][3]
             && a[3][0] == b[3][0] && a[3][1] == b[3][1] && a[3][2] == b[3][2] && a[3][3] == b[3][3]
    ensures a == b
  {
    Mat4Literal(a);
    Mat4Literal(b);
  }

  /** The entry-wise facts an exact SE(3) pose provides. */
  lemma RigidEntries(t: Matrix)
    requires IsRigid(t)
    ensures t[3][0] == 0.0 && t[3][1] == 0.0 && t[3][2] == 0.0 && t[3][3] == 1.0
  {
  }

  /** A block whose entries are those of a rotation is a rotation. */
  lemma RotationFromEntries(t: Matrix, a00: real, a01: real, a02: real,
                            a10: real, a11: real, a12: real,
                            a20: real, a21: real, a22: real)
    requires HasBlock(t) && Orthonormal(a00, a01, a02, a10, a11, a12, a20, a21, a22)
    requires t[0][0] == a00 && t[0][1] == a01 && t[0][2] == a02
    requires t[1][0] == a10 && t[1][1] == a11 && t[1][2] == a12
    requires t[2][0] == a20 && t[2][1] == a21 && t[2][2] == a22
    ensures IsRotation(t)
  {
  }

  lemma IdentityIsRigid()
    ensures IsRigid(Identity)
  {
    assert Identity[0] == [1.0, 0.0, 0.0, 0.0] && Identity[1] == [0.0, 1.0, 0.0, 0.0];
    assert Identity[2] == [0.0, 0.0, 1.0, 0.0] && Identity[3] == [0.0, 0.0, 0.0, 1.0];
  }

  /** The identity is neutral on both sides of the product. */
  lemma MulIdentity(a: Mat4)
    ensures Mul(Identity, a) == a && Mul(a, Identity) == a
  {
    Mat4Equal(Mul(Identity, a), a);
    Mat4Equal(Mul(a, Identity), a);
  }

  /**
   * One entry of (a b) c against a (b c), for a row a0..a3 of a, the matrix b,
   * a column c0..c3 of c, the row p of a b and the column q of b c.
   */
  lemma DotAssoc(a0: real, a1: real, a2: real, a3: real,
                 b00: real, b01: real, b02: real, b03: real,
                 b10: real, b11: real, b12: real, b13: real,
                 b20: real, b21: real, b22: real, b23: real,
                 b30: real, b31: real, b32: real, b33: real,
                 c0: real, c1: real, c2: real, c3: real,
                 p0: real, p1: real, p2: real, p3: real,
                 q0: real, q1: real, q2: real, q3: real)
    requires p0 == a0 * b00 + a1 * b10 + a2 * b20 + a3 * b30
    requires p1 == a0 * b01 + a1 * b11 + a2 * b21 + a3 * b31
    requires p2 == a0 * b02 + a1 * b12 + a2 * b22 + a3 * b32
    requires p3 == a0 * b03 + a1 * b13 + a2 * b23 + a3 * b33
    requires q0 == b00 * c0 + b01 * c1 + b02 * c2 + b03 * c3
    requires q1 == b10 * c0 + b11 * c1 + b12 * c2 + b13 * c3
    requires q2 == b20 * c0 + b21 * c1 + b22 * c2 + b23 * c3
    requires q3 == b30 * c0 + b31 * c1 + b32 * c2 + b33 * c3
    ensures p0 * c0 + p1 * c1 + p2 * c2 + p3 * c3 == a0 * q0 + a1 * q1 + a2 * q2 + a3 * q3
  {
  }

  /** Entry (i, j) of (a b) c equals entry (i, j) of a (b c), for any ab and bc agreeing with the products. */
  lemma MulAssocAt(a: Mat4, b: Mat4, c: Mat4, ab: Mat4, bc: Mat4, i: nat, j: nat)
    requires i < 4 && j < 4
    requires forall k | 0 <= k < 4 :: ab[i][k] == Dot(a, b, i, k)
    requires forall k | 0 <= k < 4 :: bc[k][j] == Dot(b, c, k, j)
    ensures Dot(ab, c, i, j) == Dot(a, bc, i, j)
  {
    DotAssoc(a[i][0], a[i][1], a[i][2], a[i][3],
             b[0][0], b[0][1], b[0][2], b[0][3],
             b[1][0], b[1][1], b[1][2], b[1][3],
             b[2][0], b[2][1], b[2][2], b[2][3],
             b[3][0], b[3][1], b[3][2], b[3][3],
             c[0][j], c[1][j], c[2][j], c[3][j],
             ab[i][0], ab[i][1], ab[i][2], ab[i][3],
             bc[0][j], bc[1][j], bc[2][j], bc[3][j]);
  }

  /** The matrix product is associative. */
  lemma MulAssoc(a: Mat4, b: Mat4, c: Mat4)
    ensures Mul(Mul(a, b), c) == Mul(a, Mul(b, c))
  {
    var ab, bc := Mul(a, b), Mul(b, c);
    var l, r := Mul(ab, c), Mul(a, bc);
    forall i, j | 0 <= i < 4 && 0 <= j < 4
      ensures l[i][j] == r[i][j]
    {
      MulAssocAt(a, b, c, ab, bc, i, j);
    }
    assert forall i | 0 <= i < 4 :: l[i] == r[i];
  }

  /**
   * The product P = X Y of two rotations is a rotation: X maps the orthonormal
   * columns of Y to those of P, Y^T maps the orthonormal rows of X to those of
   * P, and det P = det X det Y.
   */
  lemma ProductOrthonormal(x00: real, x01: real, x02: real,
                           x10: real, x11: real, x12: real,
                           x20: real, x21: real, x22: real,
                           y00: real, y01: real, y02: real,
                           y10: real, y11: real, y12: real,
                           y20: real, y21: real, y22: real,
                           p00: real, p01: real, p02: real,
                           p10: real, p11: real, p12: real,
                           p20: real, p21: real, p22: real)
    requires Orthonormal(x00, x01, x02, x10, x11, x12, x20, x21, x22)
    requires Orthonormal(y00, y01, y02, y10, y11, y12, y20, y21, y22)
    requires p00 == Dot3(x00, x01, x02, y00, y10, y20) && p01 == Dot3(x00, x01, x02, y01, y11, y21) && p02 == Dot3(x00, x01, x02, y02, y12, y22)
    requires p10 == Dot3(x10, x11, x12, y00, y10, y20) && p11 == Dot3(x10, x11, x12, y01, y11, y21) && p12 == Dot3(x10, x11, x12, y02, y12, y22)
    requires p20 == Dot3(x20, x21, x22, y00, y10, y20) && p21 == Dot3(x20, x21, x22, y01, y11, y21) && p22 == Dot3(x20, x21, x22, y02, y12, y22)
    ensures Orthonormal(p00, p01, p02, p10, p11, p12, p20, p21, p22)
  {
    RotationPreservesDot(x00, x01, x02, x10, x11, x12, x20, x21, x22, y00, y10, y20, y00, y10, y20);
    RotationPreservesDot(x00, x01, x02, x10, x11, x12, x20, x21, x22, y00, y10, y20, y01, y11, y21);
    RotationPreservesDot(x00, x01, x02, x10, x11, x12, x20, x21, x22, y00, y10, y20, y02, y12, y22);
    RotationPreservesDot(x00, x01, x02, x10, x11, x12, x20, x21, x22, y01, y11, y21, y00, y10, y20);
    RotationPreservesDot(x00, x01, x02, x10, x11, x12, x20, x21, x22, y01, y11, y21, y01, y11, y21);
    RotationPreservesDot(x00, x01, x02, x10, x11, x12, x20, x21, x22, y01, y11, y21, y02, y12, y22);
    RotationPreservesDot(x00, x01, x02, x10, x11, x12, x20, x21, x22, y02, y12, y22, y00, y10, y20);
    RotationPreservesDot(x00, x01, x02, x10, x11, x12, x20, x21, x22, y02, y12, y22, y01, y11, y21);
    RotationPreservesDot(x00, x01, x02, x10, x11, x12, x20, x21, x22, y02, y12, y22, y02, y12, y22);
    OrthonormalTranspose(y00, y01, y02, y10, y11, y12, y20, y21, y22);
    RotationPreservesDot(y00, y10, y20, y01, y11, y21, y02, y12, y22, x00, x01, x02, x00, x01, x02);
    RotationPreservesDot(y00, y10, y20, y01, y11, y21, y02, y12, y22, x00, x01, x02, x10, x11, x12);
    RotationPreservesDot(y00, y10, y20, y01, y11, y21, y02, y12, y22, x00, x01, x02, x20, x21, x22);
    RotationPreservesDot(y00, y10, y20, y01, y11, y21, y02, y12, y22, x10, x11, x12, x00, x01, x02);
    RotationPreservesDot(y00, y10, y20, y01, y11, y21, y02, y12, y22, x10, x11, x12, x10, x11, x12);
    RotationPreservesDot(y00, y10, y20, y01, y11, y21, y02, y12, y22, x10, x11, x12, x20, x21, x22);
    RotationPreservesDot(y00, y10, y20, y01, y11, y21, y02, y12, y22, x20, x21, x22, x00, x01, x02);
    RotationPreservesDot(y00, y10, y20, y01, y11, y21, y02, y12, y22, x20, x21, x22, x10, x11, x12);
    RotationPreservesDot(y00, y10, y20, y01, y11, y21, y02, y12, y22, x20, x21, x22, x20, x21, x22);
    DetProduct(x00, x01, x02, x10, x11, x12, x20, x21, x22, y00, y01, y02, y10, y11, y12, y20, y21, y22);
  }

  /** The product of two exact SE(3) poses is one. */
  lemma ProductIsRigid(a: Mat4, b: Mat4)
    requires IsRigid(a) && IsRigid(b)
    ensures IsRigid(Mul(a, b))
  {
    var c := Mul(a, b);
    RigidEntries(b);
    assert forall i, j | 0 <= i < 3 && 0 <= j < 3 ::
      c[i][j] == Dot3(a[i][0], a[i][1], a[i][2], b[0][j], b[1][j], b[2][j]);
    ProductOrthonormal(a[0][0], a[0][1], a[0][2], a[1][0], a[1][1], a[1][2], a[2][0], a[2][1], a[2][2],
                       b[0][0], b[0][1], b[0][2], b[1][0], b[1][1], b[1][2], b[2][0], b[2][1], b[2][2],
                       c[0][0], c[0][1], c[0][2], c[1][0], c[1][1], c[1][2], c[2][0], c[2][1], c[2][2]);
    assert c[3] == [0.0, 0.0, 0.0, 1.0];
  }

  /** For an exact SE(3) pose the closed form is a left inverse. */
  lemma InverseIsLeftInverse(t: Mat4)
    requires IsRigid(t)
    ensures Mul(InverseOf(t), t) == Identity
  {
    RigidEntries(t);
    Mat4Equal(Mul(InverseOf(t), t), Identity);
  }

  /**
   * Rows r of R against the column v = -R^T p: r . v is minus the product of
   * the row r R^T with p, for R = (a00 .. a22) and p = (p0, p1, p2).
   */
  lemma RotateBack(r0: real, r1: real, r2: real,
                   a00: real, a01: real, a02: real,
                   a10: real, a11: real, a12: real,
                   a20: real, a21: real, a22: real,
                   p0: real, p1: real, p2: real,
                   v0: real, v1: real, v2: real)
    requires v0 == -Dot3(a00, a10, a20, p0, p1, p2)
    requires v1 == -Dot3(a01, a11, a21, p0, p1, p2)
    requires v2 == -Dot3(a02, a12, a22, p0, p1, p2)
    ensures Dot3(r0, r1, r2, v0, v1, v2)
         == -(Dot3(r0, r1, r2, a00, a01, a02) * p0
            + Dot3(r0, r1, r2, a10, a11, a12) * p1
            + Dot3(r0, r1, r2, a20, a21, a22) * p2)
  {
  }

  /** RotateBack for row i of t against the last column of its closed-form inverse. */
  lemma RotateBackRow(t: Mat4, v: Mat4, i: nat)
    requires i < 3
    requires v[0][3] == -Dot3(t[0][0], t[1][0], t[2][0], t[0][3], t[1][3], t[2][3])
    requires v[1][3] == -Dot3(t[0][1], t[1][1], t[2][1], t[0][3], t[1][3], t[2][3])
    requires v[2][3] == -Dot3(t[0][2], t[1][2], t[2][2], t[0][3], t[1][3], t[2][3])
    ensures Dot3(t[i][0], t[i][1], t[i][2], v[0][3], v[1][3], v[2][3])
         == -(Dot3(t[i][0], t[i][1], t[i][2], t[0][0], t[0][1], t[0][2]) * t[0][3]
            + Dot3(t[i][0], t[i][1], t[i][2], t[1][0], t[1][1], t[1][2]) * t[1][3]
            + Dot3(t[i][0], t[i][1], t[i][2], t[2][0], t[2][1], t[2][2]) * t[2][3])
  {
    RotateBack(t[i][0], t[i][1], t[i][2],
               t[0][0], t[0][1], t[0][2], t[1][0], t[1][1], t[1][2], t[2][0], t[2][1], t[2][2],
               t[0][3], t[1][3], t[2][3], v[0][3], v[1][3], v[2][3]);
  }

  /** For an exact SE(3) pose the closed form is a right inverse. */
  lemma InverseIsRightInverse(t: Mat4)
    requires IsRigid(t)
    ensures Mul(t, InverseOf(t)) == Identity
  {
    var v := InverseOf(t);
    RigidEntries(t);
    RotateBackRow(t, v, 0);
    RotateBackRow(t, v, 1);
    RotateBackRow(t, v, 2);
    Mat4Equal(Mul(t, v), Identity);
  }

  /** The closed-form inverse of an exact SE(3) pose is again one. */
  lemma InverseIsRigid(t: Mat4)
    requires IsRigid(t)
    ensures IsRigid(InverseOf(t))
  {
    var v := InverseOf(t);
    RigidEntries(t);
    OrthonormalTranspose(t[0][0], t[0][1], t[0][2], t[1][0], t[1][1], t[1][2], t[2][0], t[2][1], t[2][2]);
  }

  /**
   * For an exact SE(3) pose, transform_inverse succeeds, its result is a two-sided
   * inverse, and inverting twice gives the pose back.
   */
  lemma InverseProperties(t: Matrix)
    requires IsRigid(t)
    ensures TransformInverse(t).Ok?
    ensures Mul(TransformInverse(t).value, t) == Identity
    ensures Mul(t, TransformInverse(t).value) == Identity
    ensures TransformInverse(TransformInverse(t).value) == Ok(t)
  {
    RigidIsValid(t, DefaultTolerance);
    var v := InverseOf(t);
    InverseIsLeftInverse(t);
    InverseIsRightInverse(t);
    InverseIsRigid(t);
    RigidIsValid(v, DefaultTolerance);
    RigidEntries(t);
    RotateBackRow(t, v, 0);
    RotateBackRow(t, v, 1);
    RotateBackRow(t, v, 2);
    Mat4Equal(InverseOf(v), t);
  }

  /** The pose of an exact SE(3) pose relative to itself is the identity. */
  lemma RelativePoseToSelf(a: Matrix)
    requires IsRigid(a)
    ensures ComputeRelativePose(a, a) == Ok(Identity)
  {
    InverseProperties(a);
  }

  /** Composing wTa with aTb gives back wTb. */
  lemma RelativePoseComposes(a: Matrix, b: Matrix)
    requires IsRigid(a) && TransformIsValid(b, DefaultTolerance)
    ensures ComputeRelativePose(a, b).Ok?
    ensures Mul(a, ComputeRelativePose(a, b).value) == b
  {
    InverseProperties(a);
    var v := TransformInverse(a).value;
    MulAssoc(a, v, b);
    MulIdentity(b);
  }

  /**
   * relative_pose(a, b) == inverse(relative_pose(b, a)) for exact SE(3) poses:
   * both relative poses succeed and inverting the one computes the other.
   */
  lemma RelativePoseInverse(a: Matrix, b: Matrix)
    requires IsRigid(a) && IsRigid(b)
    ensures ComputeRelativePose(a, b).Ok? && ComputeRelativePose(b, a).Ok?
    ensures TransformInverse(ComputeRelativePose(b, a).value) == ComputeRelativePose(a, b)
  {
    RigidIsValid(a, DefaultTolerance);
    RigidIsValid(b, DefaultTolerance);
    var ia, ib := InverseOf(a), InverseOf(b);
    var m, n := Mul(ib, a), Mul(ia, b);
    InverseIsRigid(b);
    ProductIsRigid(ib, a);
    RigidIsValid(m, DefaultTolerance);
    // m n = ib (a ia) b = ib b = I
    InverseIsRightInverse(a);
    InverseIsLeftInverse(b);
    MulAssoc(a, ia, b);
    MulIdentity(b);
    MulAssoc(ib, a, n);
    assert Mul(m, n) == Identity;
    // so the inverse of m is n: inv(m) = inv(m) (m n) = (inv(m) m) n = n
    InverseIsLeftInverse(m);
    MulAssoc(InverseOf(m), m, n);
    MulIdentity(n);
    MulIdentity(InverseOf(m));
  }

  /** The rotation matrix of the unit quaternion (x, y, z, w), Hamilton convention, scalar last. */
  function UnitQuaternionMatrix(x: real, y: real, z: real, w: real): (r: Matrix)
    ensures |r| == 3 && forall i | 0 <= i < 3 :: |r[i]| == 3
  {
    [[1.0 - 2.0 * (y * y + z * z), 2.0 * (x * y - z * w), 2.0 * (x * z + y * w)],
     [2.0 * (x * y + z * w), 1.0 - 2.0 * (x * x + z * z), 2.0 * (y * z - x * w)],
     [2.0 * (x * z - y * w), 2.0 * (y * z + x * w), 1.0 - 2.0 * (x * x + y * y)]]
  }

  /**
   * quaternion_to_rotation_matrix: q is divided by `norm`, its length (the
   * square root the source computes is a parameter here), and turned into a matrix.
   */
  function QuaternionToRotationMatrix(qx: real, qy: real, qz: real, qw: real, norm: real): (r: Matrix)
    requires norm != 0.0
    ensures |r| == 3 && forall i | 0 <= i < 3 :: |r[i]| == 3
  {
    UnitQuaternionMatrix(qx / norm, qy / norm, qz / norm, qw / norm)
  }

  /**
   * pose_from_translation_quaternion: the rotation block from the quaternion,
   * (tx, ty, tz) in the last column and the identity's bottom row.
   */
  function PoseFromTranslationQuaternion(tx: real, ty: real, tz: real,
                                         qx: real, qy: real, qz: real, qw: real, norm: real): (t: Mat4)
    requires norm != 0.0
    ensures forall i, j | 0 <= i < 3 && 0 <= j < 3 :: t[i][j] == QuaternionToRotationMatrix(qx, qy, qz, qw, norm)[i][j]
    ensures t[0][3] == tx && t[1][3] == ty && t[2][3] == tz
    ensures t[3] == [0.0, 0.0, 0.0, 1.0]
  {
    var r := QuaternionToRotationMatrix(qx, qy, qz, qw, norm);
    [[r[0][0], r[0][1], r[0][2], tx],
     [r[1][0], r[1][1], r[1][2], ty],
     [r[2][0], r[2][1], r[2][2], tz],
     [0.0, 0.0, 0.0, 1.0]]
  }

  /** The identity quaternion (0, 0, 0, 1) gives the pure translation. */
  lemma IdentityQuaternion(tx: real, ty: real, tz: real)
    ensures PoseFromTranslationQuaternion(tx, ty, tz, 0.0, 0.0, 0.0, 1.0, 1.0) ==
      [[1.0, 0.0, 0.0, tx], [0.0, 1.0, 0.0, ty], [0.0, 0.0, 1.0, tz], [0.0, 0.0, 0.0, 1.0]]
  {
  }

  /** The rotation formula of a unit quaternion (x, y, z, w) is in SO(3). */
  lemma UnitQuaternionIsRotation(x: real, y: real, z: real, w: real)
    requires x * x + y * y + z * z + w * w == 1.0
    ensures Orthonormal(1.0 - 2.0 * (y * y + z * z), 2.0 * (x * y - z * w), 2.0 * (x * z + y * w),
                        2.0 * (x * y + z * w), 1.0 - 2.0 * (x * x + z * z), 2.0 * (y * z - x * w),
                        2.0 * (x * z - y * w), 2.0 * (y * z + x * w), 1.0 - 2.0 * (x * x + y * y))
  {
  }

  /** UnitQuaternionIsRotation for the matrix itself. */
  lemma UnitQuaternionMatrixIsRotation(x: real, y: real, z: real, w: real)
    requires x * x + y * y + z * z + w * w == 1.0
    ensures IsRotation(UnitQuaternionMatrix(x, y, z, w))
  {
    UnitQuaternionIsRotation(x, y, z, w);
    RotationFromEntries(UnitQuaternionMatrix(x, y, z, w),
                        1.0 - 2.0 * (y * y + z * z), 2.0 * (x * y - z * w), 2.0 * (x * z + y * w),
                        2.0 * (x * y + z * w), 1.0 - 2.0 * (x * x + z * z), 2.0 * (y * z - x * w),
                        2.0 * (x * z - y * w), 2.0 * (y * z + x * w), 1.0 - 2.0 * (x * x + y * y));
  }

  /**
   * When dividing q by `norm` gives a unit quaternion, the pose built from (t, q)
   * is an exact SE(3) pose and extract_displacement gives (tx, ty, tz) back.
   */
  lemma PoseFromQuaternionRoundTrip(tx: real, ty: real, tz: real,
                                    qx: real, qy: real, qz: real, qw: real, norm: real)
    requires norm != 0.0
    requires (qx / norm) * (qx / norm) + (qy / norm) * (qy / norm)
           + (qz / norm) * (qz / norm) + (qw / norm) * (qw / norm) == 1.0
    ensures IsRigid(PoseFromTranslationQuaternion(tx, ty, tz, qx, qy, qz, qw, norm))
    ensures ExtractDisplacement(PoseFromTranslationQuaternion(tx, ty, tz, qx, qy, qz, qw, norm)) == Ok([tx, ty, tz])
  {
    var r := QuaternionToRotationMatrix(qx, qy, qz, qw, norm);
    UnitQuaternionMatrixIsRotation(qx / norm, qy / norm, qz / norm, qw / norm);
    var t := PoseFromTranslationQuaternion(tx, ty, tz, qx, qy, qz, qw, norm);
    RotationFromEntries(t, r[0][0], r[0][1], r[0][2], r[1][0], r[1][1], r[1][2], r[2][0], r[2][1], r[2][2]);
    RigidIsValid(t, DefaultTolerance);
  }
}
