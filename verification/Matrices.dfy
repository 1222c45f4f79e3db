// Row-major four-by-four matrices over the reals and their product.
module Matrices {
  type Matrix = m: seq<real> | |m| == 16 witness seq(16, _ => 0.0)

  const IDENTITY_MATRIX: Matrix := [
    1.0, 0.0, 0.0, 0.0,
    0.0, 1.0, 0.0, 0.0,
    0.0, 0.0, 1.0, 0.0,
    0.0, 0.0, 0.0, 1.0]

  function At(m: Matrix, r: int, c: int): real
    requires 0 <= r < 4 && 0 <= c < 4
  {
    m[r * 4 + c]
  }

  // The first k terms of a row times a column.
  function Dot(a: Matrix, b: Matrix, r: int, c: int, k: nat): real
    requires 0 <= r < 4 && 0 <= c < 4 && k <= 4
  {
    if k == 0 then 0.0 else Dot(a, b, r, c, k - 1) + At(a, r, k - 1) * At(b, k - 1, c)
  }

  function Product(a: Matrix, b: Matrix): Matrix {
    seq(16, i requires 0 <= i < 16 => Dot(a, b, i / 4, i % 4, 4))
  }

  method Multiply(a: Matrix, b: Matrix) returns (out: Matrix)
    ensures out == Product(a, b)
  {
    out := IDENTITY_MATRIX;
    for r := 0 to 4
      invariant |out| == 16 && forall i :: 0 <= i < r * 4 ==> out[i] == Product(a, b)[i]
    {
      for c := 0 to 4
        invariant |out| == 16 && forall i :: 0 <= i < r * 4 + c ==> out[i] == Product(a, b)[i]
      {
        var sum := 0.0;
        for k := 0 to 4
          invariant sum == Dot(a, b, r, c, k)
        {
          sum := sum + a[r * 4 + k] * b[k * 4 + c];
        }
        RowAndColumn(r, c);
        out := out[r * 4 + c := sum];
      }
    }
    assert out == Product(a, b);
  }

  function Entry(a: Matrix, b: Matrix, r: int, c: int): real
    requires 0 <= r < 4 && 0 <= c < 4
  {
    At(a, r, 0) * At(b, 0, c) + At(a, r, 1) * At(b, 1, c) + At(a, r, 2) * At(b, 2, c) + At(a, r, 3) * At(b, 3, c)
  }

  // Each entry of a product, from the sixteen numbers of each matrix: a row of the
  // one times a column of the other.
  lemma ProductEntry(a: Matrix, b: Matrix, r: int, c: int)
    requires 0 <= r < 4 && 0 <= c < 4
    ensures Product(a, b)[r * 4 + c]
         == a[r * 4] * b[c] + a[r * 4 + 1] * b[4 + c] + a[r * 4 + 2] * b[8 + c] + a[r * 4 + 3] * b[12 + c]
  {
    ProductAt(a, b, r, c);
  }

  lemma RowAndColumn(r: int, c: int)
    requires 0 <= r < 4 && 0 <= c < 4
    ensures (r * 4 + c) / 4 == r && (r * 4 + c) % 4 == c
  {}

  lemma ProductAt(a: Matrix, b: Matrix, r: int, c: int)
    requires 0 <= r < 4 && 0 <= c < 4
    ensures At(Product(a, b), r, c) == Entry(a, b, r, c)
  {
    RowAndColumn(r, c);
    assert Dot(a, b, r, c, 4) == Dot(a, b, r, c, 3) + At(a, r, 3) * At(b, 3, c);
    assert Dot(a, b, r, c, 3) == Dot(a, b, r, c, 2) + At(a, r, 2) * At(b, 2, c);
    assert Dot(a, b, r, c, 2) == Dot(a, b, r, c, 1) + At(a, r, 1) * At(b, 1, c);
  }

  // ---- rows as vectors ----

  datatype Vector = Vector(x: real, y: real, z: real, w: real)

  function Add(u: Vector, v: Vector): Vector {
    Vector(u.x + v.x, u.y + v.y, u.z + v.z, u.w + v.w)
  }

  function Scale(s: real, v: Vector): Vector {
    Vector(s * v.x, s * v.y, s * v.z, s * v.w)
  }

  function Row(m: Matrix, r: int): Vector
    requires 0 <= r < 4
  {
    Vector(At(m, r, 0), At(m, r, 1), At(m, r, 2), At(m, r, 3))
  }

  function Combine(v: Vector, r0: Vector, r1: Vector, r2: Vector, r3: Vector): Vector {
    Add(Add(Add(Scale(v.x, r0), Scale(v.y, r1)), Scale(v.z, r2)), Scale(v.w, r3))
  }

  function RowTimes(v: Vector, m: Matrix): Vector {
    Combine(v, Row(m, 0), Row(m, 1), Row(m, 2), Row(m, 3))
  }

  lemma RowTimesIs(x: real, y: real, z: real, w: real, m: Matrix)
    ensures RowTimes(Vector(x, y, z, w), m)
         == Vector(x * At(m, 0, 0) + y * At(m, 1, 0) + z * At(m, 2, 0) + w * At(m, 3, 0),
                   x * At(m, 0, 1) + y * At(m, 1, 1) + z * At(m, 2, 1) + w * At(m, 3, 1),
                   x * At(m, 0, 2) + y * At(m, 1, 2) + z * At(m, 2, 2) + w * At(m, 3, 2),
                   x * At(m, 0, 3) + y * At(m, 1, 3) + z * At(m, 2, 3) + w * At(m, 3, 3))
  {}

  lemma RowOfProduct(p: Matrix, a: Matrix, b: Matrix, r: int)
    requires 0 <= r < 4
    requires forall c :: 0 <= c < 4 ==> At(p, r, c) == Entry(a, b, r, c)
    ensures Row(p, r) == RowTimes(Row(a, r), b)
  {
    assert At(p, r, 0) == Entry(a, b, r, 0) && At(p, r, 1) == Entry(a, b, r, 1);
    assert At(p, r, 2) == Entry(a, b, r, 2) && At(p, r, 3) == Entry(a, b, r, 3);
    RowTimesIs(At(a, r, 0), At(a, r, 1), At(a, r, 2), At(a, r, 3), b);
  }

  lemma ProductRow(a: Matrix, b: Matrix, r: int)
    requires 0 <= r < 4
    ensures Row(Product(a, b), r) == RowTimes(Row(a, r), b)
  {
    var p := Product(a, b);
    forall c | 0 <= c < 4 ensures At(p, r, c) == Entry(a, b, r, c) { ProductAt(a, b, r, c); }
    RowOfProduct(p, a, b, r);
  }

  lemma Distributes(s: real, t: real, p: real)
    ensures (s + t) * p == s * p + t * p
  {}

  lemma CombineAdds(u: Vector, v: Vector, r0: Vector, r1: Vector, r2: Vector, r3: Vector)
    ensures Combine(Add(u, v), r0, r1, r2, r3) == Add(Combine(u, r0, r1, r2, r3), Combine(v, r0, r1, r2, r3))
  {
    SumOfScales(u.x, v.x, r0);
    SumOfScales(u.y, v.y, r1);
    SumOfScales(u.z, v.z, r2);
    SumOfScales(u.w, v.w, r3);
  }

  lemma SumOfScales(s: real, t: real, v: Vector)
    ensures Scale(s + t, v) == Add(Scale(s, v), Scale(t, v))
  {
    Distributes(s, t, v.x);
    Distributes(s, t, v.y);
    Distributes(s, t, v.z);
    Distributes(s, t, v.w);
  }

  lemma Associates(s: real, t: real, p: real)
    ensures (s * t) * p == s * (t * p)
  {}

  lemma ScaleOfScale(s: real, t: real, v: Vector)
    ensures Scale(s * t, v) == Scale(s, Scale(t, v))
  {
    Associates(s, t, v.x);
    Associates(s, t, v.y);
    Associates(s, t, v.z);
    Associates(s, t, v.w);
  }

  lemma XScales(s: real, v: Vector, r: Vector)
    ensures Scale(Scale(s, v).x, r) == Scale(s, Scale(v.x, r))
  {
    ScaleOfScale(s, v.x, r);
  }

  lemma YScales(s: real, v: Vector, r: Vector)
    ensures Scale(Scale(s, v).y, r) == Scale(s, Scale(v.y, r))
  {
    ScaleOfScale(s, v.y, r);
  }

  lemma ZScales(s: real, v: Vector, r: Vector)
    ensures Scale(Scale(s, v).z, r) == Scale(s, Scale(v.z, r))
  {
    ScaleOfScale(s, v.z, r);
  }

  lemma WScales(s: real, v: Vector, r: Vector)
    ensures Scale(Scale(s, v).w, r) == Scale(s, Scale(v.w, r))
  {
    ScaleOfScale(s, v.w, r);
  }

  lemma ScaleOfSum(s: real, u: Vector, v: Vector)
    ensures Scale(s, Add(u, v)) == Add(Scale(s, u), Scale(s, v))
  {}

  lemma CombineScales(s: real, v: Vector, r0: Vector, r1: Vector, r2: Vector, r3: Vector)
    ensures Combine(Scale(s, v), r0, r1, r2, r3) == Scale(s, Combine(v, r0, r1, r2, r3))
  {
    var p0, p1, p2, p3 := Scale(v.x, r0), Scale(v.y, r1), Scale(v.z, r2), Scale(v.w, r3);
    XScales(s, v, r0);
    YScales(s, v, r1);
    ZScales(s, v, r2);
    WScales(s, v, r3);
    ScaleOfFour(s, p0, p1, p2, p3);
  }

  lemma ScaleOfFour(s: real, p0: Vector, p1: Vector, p2: Vector, p3: Vector)
    ensures Scale(s, Add(Add(Add(p0, p1), p2), p3))
         == Add(Add(Add(Scale(s, p0), Scale(s, p1)), Scale(s, p2)), Scale(s, p3))
  {
    ScaleOfSum(s, Add(Add(p0, p1), p2), p3);
    ScaleOfSum(s, Add(p0, p1), p2);
    ScaleOfSum(s, p0, p1);
  }

  lemma RowTimesAdds(u: Vector, v: Vector, m: Matrix)
    ensures RowTimes(Add(u, v), m) == Add(RowTimes(u, m), RowTimes(v, m))
  {
    CombineAdds(u, v, Row(m, 0), Row(m, 1), Row(m, 2), Row(m, 3));
  }

  lemma RowTimesScales(s: real, v: Vector, m: Matrix)
    ensures RowTimes(Scale(s, v), m) == Scale(s, RowTimes(v, m))
  {
    CombineScales(s, v, Row(m, 0), Row(m, 1), Row(m, 2), Row(m, 3));
  }

  // Times a matrix, a combination of rows is the same combination of the rows
  // times that matrix.
  lemma CombineTimes(v: Vector, r0: Vector, r1: Vector, r2: Vector, r3: Vector, m: Matrix)
    ensures RowTimes(Combine(v, r0, r1, r2, r3), m)
         == Combine(v, RowTimes(r0, m), RowTimes(r1, m), RowTimes(r2, m), RowTimes(r3, m))
  {
    var s0, s1, s2, s3 := Scale(v.x, r0), Scale(v.y, r1), Scale(v.z, r2), Scale(v.w, r3);
    RowTimesAdds(Add(Add(s0, s1), s2), s3, m);
    RowTimesAdds(Add(s0, s1), s2, m);
    RowTimesAdds(s0, s1, m);
    RowTimesScales(v.x, r0, m);
    RowTimesScales(v.y, r1, m);
    RowTimesScales(v.z, r2, m);
    RowTimesScales(v.w, r3, m);
  }

  lemma RowAssociates(a: Matrix, b: Matrix, c: Matrix, r: int)
    requires 0 <= r < 4
    ensures Row(Product(Product(a, b), c), r) == Row(Product(a, Product(b, c)), r)
  {
    var v := Row(a, r);
    ProductRow(Product(a, b), c, r);
    ProductRow(a, b, r);
    CombineTimes(v, Row(b, 0), Row(b, 1), Row(b, 2), Row(b, 3), c);
    ProductRow(a, Product(b, c), r);
    ProductRow(b, c, 0);
    ProductRow(b, c, 1);
    ProductRow(b, c, 2);
    ProductRow(b, c, 3);
  }

  lemma RowsDecide(a: Matrix, b: Matrix)
    requires forall r :: 0 <= r < 4 ==> Row(a, r) == Row(b, r)
    ensures a == b
  {
    forall i | 0 <= i < 16 ensures a[i] == b[i] {
      var r := i / 4;
      assert Row(a, r) == Row(b, r);
    }
  }

  lemma ProductAssociates(a: Matrix, b: Matrix, c: Matrix)
    ensures Product(Product(a, b), c) == Product(a, Product(b, c))
  {
    var left, right := Product(Product(a, b), c), Product(a, Product(b, c));
    forall r | 0 <= r < 4 ensures Row(left, r) == Row(right, r) { RowAssociates(a, b, c, r); }
    RowsDecide(left, right);
  }

  function Unit(r: int): Vector {
    Vector(if r == 0 then 1.0 else 0.0, if r == 1 then 1.0 else 0.0,
           if r == 2 then 1.0 else 0.0, if r == 3 then 1.0 else 0.0)
  }

  lemma IdentityRow(r: int)
    requires 0 <= r < 4
    ensures Row(IDENTITY_MATRIX, r) == Unit(r)
  {}

  lemma UnitPicksRow(m: Matrix, r: int)
    requires 0 <= r < 4
    ensures RowTimes(Unit(r), m) == Row(m, r)
  {}

  lemma CombineUnits(v: Vector)
    ensures Combine(v, Unit(0), Unit(1), Unit(2), Unit(3)) == v
  {}

  lemma IdentityIsNeutral(a: Matrix)
    ensures Product(a, IDENTITY_MATRIX) == a == Product(IDENTITY_MATRIX, a)
  {
    forall r | 0 <= r < 4 ensures Row(Product(a, IDENTITY_MATRIX), r) == Row(a, r) {
      ProductRow(a, IDENTITY_MATRIX, r);
      IdentityRow(0);
      IdentityRow(1);
      IdentityRow(2);
      IdentityRow(3);
      CombineUnits(Row(a, r));
    }
    RowsDecide(Product(a, IDENTITY_MATRIX), a);
    forall r | 0 <= r < 4 ensures Row(Product(IDENTITY_MATRIX, a), r) == Row(a, r) {
      ProductRow(IDENTITY_MATRIX, a, r);
      IdentityRow(r);
      UnitPicksRow(a, r);
    }
    RowsDecide(Product(IDENTITY_MATRIX, a), a);
  }
}
