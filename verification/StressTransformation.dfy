/** The 6 by 6 matrix that transforms packed symmetric stresses, filled entry by entry, and its sensitivity. */
module StressTransformation {
  import opened LinearAlgebra

  /** The row and column of the tensor entry in packed position k: 00, 11, 22, 01, 12, 20. */
  function First(k: nat): nat {
    if k < 3 then k else if k == 3 then 0 else if k == 4 then 1 else 2
  }

  function Second(k: nat): nat {
    if k < 3 then k else if k == 3 then 1 else if k == 4 then 2 else 0
  }

  function Pair(t: Matrix, p: nat, a: nat, q: nat, b: nat): real {
    t(p, a) * t(q, b)
  }

  function PairChange(t: Matrix, dt: Matrix, p: nat, a: nat, q: nat, b: nat): real {
    dt(p, a) * t(q, b) + t(p, a) * dt(q, b)
  }

  function Entry(t: Matrix, i: nat, j: nat): real {
    var a, b, p, q := First(i), Second(i), First(j), Second(j);
    if j < 3 then Pair(t, p, a, q, b) else Pair(t, p, a, q, b) + Pair(t, p, b, q, a)
  }

  function SensitivityEntry(t: Matrix, dt: Matrix, i: nat, j: nat): real {
    var a, b, p, q := First(i), Second(i), First(j), Second(j);
    if j < 3 then PairChange(t, dt, p, a, q, b) else PairChange(t, dt, p, a, q, b) + PairChange(t, dt, p, b, q, a)
  }

  // ---------------------------------------------------------------------------------------------
  // Three by three matrices and packed tensors
  // ---------------------------------------------------------------------------------------------

  function Product(a: Matrix, b: Matrix): Matrix {
    (i, j) => a(i, 0) * b(0, j) + a(i, 1) * b(1, j) + a(i, 2) * b(2, j)
  }

  function Transpose(a: Matrix): Matrix {
    (i, j) => a(j, i)
  }

  /** T^T S T. */
  function Rotated(t: Matrix, s: Matrix): Matrix {
    Product(Transpose(t), Product(s, t))
  }

  datatype Packed = Packed(xx: real, yy: real, zz: real, xy: real, yz: real, zx: real) {

    function At(k: nat): real {
      if k == 0 then xx else if k == 1 then yy else if k == 2 then zz else if k == 3 then xy else if k == 4 then yz
        else zx
    }

    /** The symmetric tensor with these entries. */
    function Tensor(): Matrix {
      (i, j) => if i == 0 && j == 0 then xx else if i == 1 && j == 1 then yy else if i == 2 && j == 2 then zz
                else if i + j == 1 then xy else if i + j == 3 then yz else zx
    }
  }

  function Pack(s: Matrix): Packed {
    Packed(s(0, 0), s(1, 1), s(2, 2), s(0, 1), s(1, 2), s(2, 0))
  }

  /** Row i of the transformation matrix times a packed tensor. */
  function RowTimes(t: Matrix, i: nat, v: Packed): real {
    Sum6(Entry(t, i, 0), Entry(t, i, 1), Entry(t, i, 2), Entry(t, i, 3), Entry(t, i, 4), Entry(t, i, 5), v)
  }

  function Sum6(e0: real, e1: real, e2: real, e3: real, e4: real, e5: real, v: Packed): real {
    e0 * v.xx + e1 * v.yy + e2 * v.zz + e3 * v.xy + e4 * v.yz + e5 * v.zx
  }

  function Times(t: Matrix, v: Packed): Packed {
    Packed(RowTimes(t, 0, v), RowTimes(t, 1, v), RowTimes(t, 2, v), RowTimes(t, 3, v), RowTimes(t, 4, v),
           RowTimes(t, 5, v))
  }

  // ---------------------------------------------------------------------------------------------
  // The matrix represents the rotation of tensors
  // ---------------------------------------------------------------------------------------------

  datatype Column = Column(e0: real, e1: real, e2: real)

  function ColumnOf(t: Matrix, a: nat): Column {
    Column(t(0, a), t(1, a), t(2, a))
  }

  function Dot3(x: Column, y: Column): real {
    x.e0 * y.e0 + x.e1 * y.e1 + x.e2 * y.e2
  }

  function RowOf(s: Matrix, p: nat): Column {
    Column(s(p, 0), s(p, 1), s(p, 2))
  }

  function Image(s: Matrix, y: Column): Column {
    Column(Dot3(RowOf(s, 0), y), Dot3(RowOf(s, 1), y), Dot3(RowOf(s, 2), y))
  }

  /** x^T S y. */
  function Bilinear(x: Column, s: Matrix, y: Column): real {
    Dot3(x, Image(s, y))
  }

  /** The packed form of x^T S y for a symmetric S. */
  function PackedForm(x: Column, y: Column, v: Packed): real {
    Sum6(x.e0 * y.e0, x.e1 * y.e1, x.e2 * y.e2, x.e0 * y.e1 + y.e0 * x.e1, x.e1 * y.e2 + y.e1 * x.e2,
         x.e2 * y.e0 + y.e2 * x.e0, v)
  }

  lemma FormsAgree(x: Column, y: Column, v: Packed)
    ensures PackedForm(x, y, v) == Bilinear(x, v.Tensor(), y)
  {
    var s := v.Tensor();
    SymmetricForm(x.e0, x.e1, x.e2, y.e0, y.e1, y.e2, v, s(0, 0), s(0, 1), s(0, 2), s(1, 0), s(1, 1), s(1, 2), s(2, 0),
                  s(2, 1), s(2, 2));
    hide Sum6, Packed.Tensor;
  }

  lemma SymmetricForm(x0: real, x1: real, x2: real, y0: real, y1: real, y2: real, v: Packed,
                      s00: real, s01: real, s02: real, s10: real, s11: real, s12: real, s20: real, s21: real, s22: real)
    requires s00 == v.xx && s11 == v.yy && s22 == v.zz && s01 == s10 == v.xy && s12 == s21 == v.yz && s20 == s02 == v.zx
    ensures Sum6(x0 * y0, x1 * y1, x2 * y2, x0 * y1 + y0 * x1, x1 * y2 + y1 * x2, x2 * y0 + y2 * x0, v)
         == x0 * (s00 * y0 + s01 * y1 + s02 * y2) + x1 * (s10 * y0 + s11 * y1 + s12 * y2)
           + x2 * (s20 * y0 + s21 * y1 + s22 * y2)
  {
  }

  lemma RowIsForm(t: Matrix, v: Packed, i: nat)
    requires i < 6
    ensures RowTimes(t, i, v) == PackedForm(ColumnOf(t, First(i)), ColumnOf(t, Second(i)), v)
  {
    var x, y := ColumnOf(t, First(i)), ColumnOf(t, Second(i));
    EntriesAre(t, i, x, y);
    hide Entry, Sum6, ColumnOf, First, Second;
    SameSum(Entry(t, i, 0), Entry(t, i, 1), Entry(t, i, 2), Entry(t, i, 3), Entry(t, i, 4), Entry(t, i, 5),
            x.e0 * y.e0, x.e1 * y.e1, x.e2 * y.e2, x.e0 * y.e1 + y.e0 * x.e1, x.e1 * y.e2 + y.e1 * x.e2,
            x.e2 * y.e0 + y.e2 * x.e0, v);
  }

  lemma EntriesAre(t: Matrix, i: nat, x: Column, y: Column)
    requires i < 6 && x == ColumnOf(t, First(i)) && y == ColumnOf(t, Second(i))
    ensures Entry(t, i, 0) == x.e0 * y.e0 && Entry(t, i, 1) == x.e1 * y.e1 && Entry(t, i, 2) == x.e2 * y.e2
    ensures Entry(t, i, 3) == x.e0 * y.e1 + y.e0 * x.e1
    ensures Entry(t, i, 4) == x.e1 * y.e2 + y.e1 * x.e2
    ensures Entry(t, i, 5) == x.e2 * y.e0 + y.e2 * x.e0
  {
    var a, b := First(i), Second(i);
    hide Pair, SensitivityEntry;
    assert First(0) == Second(0) == 0 && First(1) == Second(1) == 1 && First(2) == Second(2) == 2;
    assert First(3) == 0 && Second(3) == 1 && First(4) == 1 && Second(4) == 2 && First(5) == 2 && Second(5) == 0;
    PairIs(t, 0, a, 0, b, x.e0, y.e0);
    PairIs(t, 1, a, 1, b, x.e1, y.e1);
    PairIs(t, 2, a, 2, b, x.e2, y.e2);
    PairIs(t, 0, a, 1, b, x.e0, y.e1);
    PairIs(t, 0, b, 1, a, y.e0, x.e1);
    PairIs(t, 1, a, 2, b, x.e1, y.e2);
    PairIs(t, 1, b, 2, a, y.e1, x.e2);
    PairIs(t, 2, a, 0, b, x.e2, y.e0);
    PairIs(t, 2, b, 0, a, y.e2, x.e0);
    hide First, Second, ColumnOf;
  }

  lemma PairIs(t: Matrix, p: nat, a: nat, q: nat, b: nat, x: real, y: real)
    requires t(p, a) == x && t(q, b) == y
    ensures Pair(t, p, a, q, b) == x * y
  {
  }

  lemma SameSum(e0: real, e1: real, e2: real, e3: real, e4: real, e5: real,
                f0: real, f1: real, f2: real, f3: real, f4: real, f5: real, v: Packed)
    requires e0 == f0 && e1 == f1 && e2 == f2 && e3 == f3 && e4 == f4 && e5 == f5
    ensures Sum6(e0, e1, e2, e3, e4, e5, v) == Sum6(f0, f1, f2, f3, f4, f5, v)
  {
  }

  lemma RotatedIsForm(t: Matrix, s: Matrix, a: nat, b: nat)
    ensures Rotated(t, s)(a, b) == Bilinear(ColumnOf(t, a), s, ColumnOf(t, b))
  {
  }

  lemma RowIsRotated(t: Matrix, v: Packed, i: nat)
    requires i < 6
    ensures RowTimes(t, i, v) == Rotated(t, v.Tensor())(First(i), Second(i))
  {
    hide *;
    RowIsForm(t, v, i);
    FormsAgree(ColumnOf(t, First(i)), ColumnOf(t, Second(i)), v);
    RotatedIsForm(t, v.Tensor(), First(i), Second(i));
  }

  /** The matrix times a packed symmetric tensor is the packed T^T S T. */
  lemma RepresentsRotation(t: Matrix, v: Packed)
    ensures Times(t, v) == Pack(Rotated(t, v.Tensor()))
  {
    hide RowTimes, Rotated, Packed.Tensor;
    RowIsRotated(t, v, 0);
    RowIsRotated(t, v, 1);
    RowIsRotated(t, v, 2);
    RowIsRotated(t, v, 3);
    RowIsRotated(t, v, 4);
    RowIsRotated(t, v, 5);
  }

  // ---------------------------------------------------------------------------------------------
  // Composition
  // ---------------------------------------------------------------------------------------------

  function Combine(x: Column, c0: Column, c1: Column, c2: Column): Column {
    Column(x.e0 * c0.e0 + x.e1 * c1.e0 + x.e2 * c2.e0, x.e0 * c0.e1 + x.e1 * c1.e1 + x.e2 * c2.e1,
           x.e0 * c0.e2 + x.e1 * c1.e2 + x.e2 * c2.e2)
  }

  lemma DotOfCombination(x: Column, c0: Column, c1: Column, c2: Column, z: Column)
    ensures Dot3(Combine(x, c0, c1, c2), z) == Dot3(x, Column(Dot3(c0, z), Dot3(c1, z), Dot3(c2, z)))
    ensures Dot3(z, Combine(x, c0, c1, c2)) == Dot3(x, Column(Dot3(z, c0), Dot3(z, c1), Dot3(z, c2)))
  {
  }

  lemma DotCommutes(x: Column, y: Column)
    ensures Dot3(x, y) == Dot3(y, x)
  {
  }

  lemma ImageOfCombination(s: Matrix, y: Column, c0: Column, c1: Column, c2: Column)
    ensures Image(s, Combine(y, c0, c1, c2)) == Combine(y, Image(s, c0), Image(s, c1), Image(s, c2))
  {
    ImageEntry(RowOf(s, 0), y, c0, c1, c2);
    ImageEntry(RowOf(s, 1), y, c0, c1, c2);
    ImageEntry(RowOf(s, 2), y, c0, c1, c2);
    hide Dot3;
  }

  lemma ImageEntry(r: Column, y: Column, c0: Column, c1: Column, c2: Column)
    ensures Dot3(r, Combine(y, c0, c1, c2)) == y.e0 * Dot3(r, c0) + y.e1 * Dot3(r, c1) + y.e2 * Dot3(r, c2)
  {
  }

  /** Rotating by T1 and then forming x^T . y is forming (T1 x)^T S (T1 y). */
  lemma BilinearOfRotated(x: Column, t: Matrix, s: Matrix, y: Column)
    ensures var c0, c1, c2 := ColumnOf(t, 0), ColumnOf(t, 1), ColumnOf(t, 2);
      Bilinear(x, Rotated(t, s), y) == Bilinear(Combine(x, c0, c1, c2), s, Combine(y, c0, c1, c2))
  {
    var c0, c1, c2, r := ColumnOf(t, 0), ColumnOf(t, 1), ColumnOf(t, 2), Rotated(t, s);
    var z := Image(s, Combine(y, c0, c1, c2));
    hide Rotated, Combine, ColumnOf, Image;
    ImageOfCombination(s, y, c0, c1, c2);
    RotatedRow(t, s, 0);
    RotatedRow(t, s, 1);
    RotatedRow(t, s, 2);
    RowThroughCombination(s, y, c0, c1, c2, c0, RowOf(r, 0));
    RowThroughCombination(s, y, c0, c1, c2, c1, RowOf(r, 1));
    RowThroughCombination(s, y, c0, c1, c2, c2, RowOf(r, 2));
    assert Image(r, y) == Column(Dot3(c0, z), Dot3(c1, z), Dot3(c2, z)) by {
      ImageIs(r, y);
    }
    DotOfCombination(x, c0, c1, c2, z);
    hide Dot3;
  }

  lemma ImageIs(s: Matrix, y: Column)
    ensures Image(s, y) == Column(Dot3(RowOf(s, 0), y), Dot3(RowOf(s, 1), y), Dot3(RowOf(s, 2), y))
  {
  }

  lemma RotatedRow(t: Matrix, s: Matrix, p: nat)
    ensures RowOf(Rotated(t, s), p)
         == Column(Dot3(ColumnOf(t, p), Image(s, ColumnOf(t, 0))), Dot3(ColumnOf(t, p), Image(s, ColumnOf(t, 1))),
                   Dot3(ColumnOf(t, p), Image(s, ColumnOf(t, 2))))
  {
    RotatedIsForm(t, s, p, 0);
    RotatedIsForm(t, s, p, 1);
    RotatedIsForm(t, s, p, 2);
    hide Rotated, Image, ColumnOf, Dot3;
  }

  lemma RowThroughCombination(s: Matrix, y: Column, c0: Column, c1: Column, c2: Column, c: Column, row: Column)
    requires row == Column(Dot3(c, Image(s, c0)), Dot3(c, Image(s, c1)), Dot3(c, Image(s, c2)))
    ensures Dot3(row, y) == Dot3(c, Image(s, Combine(y, c0, c1, c2)))
  {
    hide Image, Combine, Dot3;
    ImageOfCombination(s, y, c0, c1, c2);
    DotOfCombination(y, Image(s, c0), Image(s, c1), Image(s, c2), c);
    DotCommutes(row, y);
  }

  /** Only the nine entries of the tensor matter. */
  predicate SameEntries(s: Matrix, r: Matrix) {
    RowOf(s, 0) == RowOf(r, 0) && RowOf(s, 1) == RowOf(r, 1) && RowOf(s, 2) == RowOf(r, 2)
  }

  lemma RotatedIsSymmetric(t: Matrix, v: Packed, a: nat, b: nat)
    ensures Rotated(t, v.Tensor())(a, b) == Rotated(t, v.Tensor())(b, a)
  {
    var x, y := ColumnOf(t, a), ColumnOf(t, b);
    hide Rotated, Bilinear, Packed.Tensor, ColumnOf, Sum6;
    RotatedIsForm(t, v.Tensor(), a, b);
    RotatedIsForm(t, v.Tensor(), b, a);
    FormsAgree(x, y, v);
    FormsAgree(y, x, v);
    SameSum(x.e0 * y.e0, x.e1 * y.e1, x.e2 * y.e2, x.e0 * y.e1 + y.e0 * x.e1, x.e1 * y.e2 + y.e1 * x.e2,
            x.e2 * y.e0 + y.e2 * x.e0,
            y.e0 * x.e0, y.e1 * x.e1, y.e2 * x.e2, y.e0 * x.e1 + x.e0 * y.e1, y.e1 * x.e2 + x.e1 * y.e2,
            y.e2 * x.e0 + x.e2 * y.e0, v);
  }

  /** Packing a rotated symmetric tensor loses nothing. */
  lemma PackingRotated(t: Matrix, v: Packed)
    ensures SameEntries(Pack(Rotated(t, v.Tensor())).Tensor(), Rotated(t, v.Tensor()))
  {
    hide Rotated;
    RotatedIsSymmetric(t, v, 0, 1);
    RotatedIsSymmetric(t, v, 1, 2);
    RotatedIsSymmetric(t, v, 2, 0);
  }

  lemma ProductColumn(t1: Matrix, t2: Matrix, a: nat)
    ensures ColumnOf(Product(t1, t2), a) == Combine(ColumnOf(t2, a), ColumnOf(t1, 0), ColumnOf(t1, 1), ColumnOf(t1, 2))
  {
  }

  /** Transforming by T1 and then by T2 is transforming by T1 T2. */
  lemma TransformationsCompose(t1: Matrix, t2: Matrix, v: Packed)
    ensures Times(t2, Times(t1, v)) == Times(Product(t1, t2), v)
  {
    hide RowTimes;
    ComposedRow(t1, t2, v, 0);
    ComposedRow(t1, t2, v, 1);
    ComposedRow(t1, t2, v, 2);
    ComposedRow(t1, t2, v, 3);
    ComposedRow(t1, t2, v, 4);
    ComposedRow(t1, t2, v, 5);
  }

  lemma ComposedRow(t1: Matrix, t2: Matrix, v: Packed, i: nat)
    requires i < 6
    ensures RowTimes(t2, i, Times(t1, v)) == RowTimes(Product(t1, t2), i, v)
  {
    var a, b, u, s, r := First(i), Second(i), Times(t1, v), v.Tensor(), Rotated(t1, v.Tensor());
    var x, y := ColumnOf(t2, a), ColumnOf(t2, b);
    RepresentsRotation(t1, v);
    PackingRotated(t1, v);
    assert Image(u.Tensor(), y) == Image(r, y);
    hide *;
    RowIsRotated(t2, u, i);
    RotatedIsForm(t2, u.Tensor(), a, b);
    SameImages(x, u.Tensor(), r, y);
    BilinearOfRotated(x, t1, s, y);
    ProductColumn(t1, t2, a);
    ProductColumn(t1, t2, b);
    RotatedIsForm(Product(t1, t2), s, a, b);
    RowIsRotated(Product(t1, t2), v, i);
  }

  lemma SameImages(x: Column, s: Matrix, r: Matrix, y: Column)
    requires Image(s, y) == Image(r, y)
    ensures Bilinear(x, s, y) == Bilinear(x, r, y)
  {
  }

  function Unit(j: nat): Packed {
    var e := (k: nat) => if k == j then 1.0 else 0.0;
    Packed(e(0), e(1), e(2), e(3), e(4), e(5))
  }

  /** Column j of the transformation matrix. */
  function MatrixColumn(t: Matrix, j: nat): Packed {
    Packed(Entry(t, 0, j), Entry(t, 1, j), Entry(t, 2, j), Entry(t, 3, j), Entry(t, 4, j), Entry(t, 5, j))
  }

  lemma UnitPicks(t: Matrix, i: nat, j: nat)
    requires j < 6
    ensures RowTimes(t, i, Unit(j)) == Entry(t, i, j)
  {
    hide Entry;
  }

  /** Entry by entry: mat(T2) mat(T1) == mat(T1 T2). */
  lemma MatricesCompose(t1: Matrix, t2: Matrix, i: nat, j: nat)
    requires i < 6 && j < 6
    ensures RowTimes(t2, i, MatrixColumn(t1, j)) == Entry(Product(t1, t2), i, j)
  {
    hide RowTimes, Entry, Product;
    UnitPicks(t1, 0, j);
    UnitPicks(t1, 1, j);
    UnitPicks(t1, 2, j);
    UnitPicks(t1, 3, j);
    UnitPicks(t1, 4, j);
    UnitPicks(t1, 5, j);
    ComposedRow(t1, t2, Unit(j), i);
    UnitPicks(Product(t1, t2), i, j);
  }

  /** The transformation by an orthogonal T is undone by the one by its transpose. */
  lemma OrthogonalUndone(t: Matrix, v: Packed)
    requires SameEntries(Product(t, Transpose(t)), IdentityMatrix())
    ensures Times(Transpose(t), Times(t, v)) == v
  {
    var p := Product(t, Transpose(t));
    TransformationsCompose(t, Transpose(t), v);
    hide Product;
    IdentityTransforms(p, v);
  }

  lemma IdentityTransforms(p: Matrix, v: Packed)
    requires SameEntries(p, IdentityMatrix())
    ensures Times(p, v) == v
  {
    assert p(0, 0) == 1.0 && p(1, 1) == 1.0 && p(2, 2) == 1.0;
    assert p(0, 1) == 0.0 && p(0, 2) == 0.0 && p(1, 0) == 0.0 && p(1, 2) == 0.0 && p(2, 0) == 0.0 && p(2, 1) == 0.0;
  }

  // ---------------------------------------------------------------------------------------------
  // Sensitivity
  // ---------------------------------------------------------------------------------------------

  /** T + h dT. */
  function Moved(t: Matrix, dt: Matrix, h: real): Matrix {
    (i, j) => t(i, j) + h * dt(i, j)
  }

  lemma PairMoves(t: Matrix, dt: Matrix, h: real, p: nat, a: nat, q: nat, b: nat)
    ensures Pair(Moved(t, dt, h), p, a, q, b) == Pair(t, p, a, q, b) + h * PairChange(t, dt, p, a, q, b)
            + h * h * Pair(dt, p, a, q, b)
  {
    var m := Moved(t, dt, h);
    ProductMoves(t(p, a), t(q, b), dt(p, a), dt(q, b), h, m(p, a), m(q, b));
    hide Moved;
  }

  lemma ProductMoves(a: real, b: real, da: real, db: real, h: real, ma: real, mb: real)
    requires ma == a + h * da && mb == b + h * db
    ensures ma * mb == a * b + h * (da * b + a * db) + h * h * (da * db)
  {
  }

  lemma Distribute(h: real, x: real, y: real)
    ensures h * (x + y) == h * x + h * y
  {
  }

  /** The sensitivity is the exact linear term: mat(T + h dT) == mat(T) + h sens(T, dT) + h^2 mat(dT). */
  lemma SensitivityIsLinearTerm(t: Matrix, dt: Matrix, h: real, i: nat, j: nat)
    requires i < 6 && j < 6
    ensures Entry(Moved(t, dt, h), i, j) == Entry(t, i, j) + h * SensitivityEntry(t, dt, i, j) + h * h * Entry(dt, i, j)
  {
    hide Pair, PairChange, First, Second, Moved;
    var a, b, p, q := First(i), Second(i), First(j), Second(j);
    PairMoves(t, dt, h, p, a, q, b);
    PairMoves(t, dt, h, p, b, q, a);
    Distribute(h, PairChange(t, dt, p, a, q, b), PairChange(t, dt, p, b, q, a));
    Distribute(h * h, Pair(dt, p, a, q, b), Pair(dt, p, b, q, a));
  }

  // ---------------------------------------------------------------------------------------------
  // Filling the matrices
  // ---------------------------------------------------------------------------------------------

  const IDS: seq<(nat, nat)> := [(0, 0), (1, 1), (2, 2), (0, 1), (1, 2), (2, 0)]

  lemma IdsAre(i: nat)
    requires i < 6
    ensures IDS[i] == (First(i), Second(i))
  {
  }

  lemma EntryAt(t: Matrix, dt: Matrix, i: nat, j: nat, a: nat, b: nat, p: nat, q: nat)
    requires a == First(i) && b == Second(i) && p == First(j) && q == Second(j)
    ensures j < 3 ==> Entry(t, i, j) == t(p, a) * t(q, b)
    ensures j >= 3 ==> Entry(t, i, j) == t(p, a) * t(q, b) + t(p, b) * t(q, a)
    ensures j < 3 ==> SensitivityEntry(t, dt, i, j) == dt(p, a) * t(q, b) + t(p, a) * dt(q, b)
    ensures j >= 3 ==> SensitivityEntry(t, dt, i, j)
                         == dt(p, a) * t(q, b) + t(p, a) * dt(q, b) + dt(p, b) * t(q, a) + t(p, b) * dt(q, a)
  {
    assert Pair(t, p, a, q, b) == t(p, a) * t(q, b) && Pair(t, p, b, q, a) == t(p, b) * t(q, a);
    assert PairChange(t, dt, p, a, q, b) == dt(p, a) * t(q, b) + t(p, a) * dt(q, b);
    assert PairChange(t, dt, p, b, q, a) == dt(p, b) * t(q, a) + t(p, b) * dt(q, a);
    hide Pair, PairChange, First, Second;
  }

  method StressStrainTransformationMatrix(t: Matrix, mat: array2<real>)
    requires mat.Length0 == 6 && mat.Length1 == 6
    modifies mat
    ensures forall i: nat, j: nat | i < 6 && j < 6 :: mat[i, j] == Entry(t, i, j)
  {
    hide Entry, SensitivityEntry;
    for i := 0 to 6
      invariant forall k: nat, l: nat | k < i && l < 6 :: mat[k, l] == Entry(t, k, l)
    {
      for j := 0 to 3
        invariant forall k: nat, l: nat | k < i && l < 6 :: mat[k, l] == Entry(t, k, l)
        invariant forall l: nat | l < 6 && (l < j || 3 <= l < j + 3) :: mat[i, l] == Entry(t, i, l)
      {
        IdsAre(i);
        IdsAre(j);
        IdsAre(j + 3);
        var a, b, p, q, r, s := IDS[i].0, IDS[i].1, IDS[j].0, IDS[j].1, IDS[j + 3].0, IDS[j + 3].1;
        EntryAt(t, t, i, j, a, b, p, q);
        EntryAt(t, t, i, j + 3, a, b, r, s);
        mat[i, j] := t(p, a) * t(q, b);
        mat[i, j + 3] := t(r, a) * t(s, b) + t(r, b) * t(s, a);
      }
    }
  }

  method StressStrainTransformationMatrixSens(t: Matrix, dt: Matrix, mat: array2<real>)
    requires mat.Length0 == 6 && mat.Length1 == 6
    modifies mat
    ensures forall i: nat, j: nat | i < 6 && j < 6 :: mat[i, j] == SensitivityEntry(t, dt, i, j)
  {
    hide SensitivityEntry, Entry;
    for i := 0 to 6
      invariant forall k: nat, l: nat | k < i && l < 6 :: mat[k, l] == SensitivityEntry(t, dt, k, l)
    {
      for j := 0 to 3
        invariant forall k: nat, l: nat | k < i && l < 6 :: mat[k, l] == SensitivityEntry(t, dt, k, l)
        invariant forall l: nat | l < 6 && (l < j || 3 <= l < j + 3) :: mat[i, l] == SensitivityEntry(t, dt, i, l)
      {
        IdsAre(i);
        IdsAre(j);
        IdsAre(j + 3);
        var a, b, p, q, r, s := IDS[i].0, IDS[i].1, IDS[j].0, IDS[j].1, IDS[j + 3].0, IDS[j + 3].1;
        EntryAt(t, dt, i, j, a, b, p, q);
        EntryAt(t, dt, i, j + 3, a, b, r, s);
        mat[i, j] := dt(p, a) * t(q, b) + t(p, a) * dt(q, b);
        mat[i, j + 3] := dt(r, a) * t(s, b) + t(r, a) * dt(s, b) + dt(r, b) * t(s, a) + t(r, b) * dt(s, a);
      }
    }
  }
}
