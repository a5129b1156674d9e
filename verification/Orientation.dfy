/** Mounting matrices and the conversions between chip and body frame: the scalar code of
    `ml_math_func.c`, the kernel's copy of it in `inv_mpu_misc.c`, and the accelerometer bias both
    compute. */
module Orientation {
  import opened Machine
  import opened FixedPoint
  import opened DmpMemory

  /** Half, as the DMP scales accelerometer biases. */
  const ACCEL_SCALE := 0x2000_0000

  // ----- matrices and their scalar code -----

  type Matrix = m: seq<int> | |m| == 9 witness [1, 0, 0, 0, 1, 0, 0, 0, 1]

  function Row(m: Matrix, i: nat): (r: seq<int>)
    requires i < 3
    ensures |r| == 3
  {
    m[3 * i..3 * i + 3]
  }

  /** `inv_row_2_scale`: the column of the first nonzero number, plus 4 if it is negative. */
  function RowScale(row: seq<int>): bv16
    requires |row| == 3
  {
    if row[0] > 0 then 0
    else if row[0] < 0 then 4
    else if row[1] > 0 then 1
    else if row[1] < 0 then 5
    else if row[2] > 0 then 2
    else if row[2] < 0 then 6
    else 7
  }

  /** `inv_orientation_matrix_to_scalar`, and the kernel's `inv_orientation_matrix_to_scaler`. */
  function Scalar(m: Matrix): bv16 {
    RowScale(Row(m, 0)) | (RowScale(Row(m, 1)) << 3) | (RowScale(Row(m, 2)) << 6)
  }

  /** The index and the sign that the code reads for output `i`. */
  function Column(o: bv16, i: nat): nat
    requires i < 3
  {
    ((if i == 0 then o else if i == 1 then o >> 3 else o >> 6) & 3) as nat
  }

  predicate Negative(o: bv16, i: nat)
    requires i < 3
  {
    o & (if i == 0 then 4 else if i == 1 then 0x20 else 0x100) != 0
  }

  /** Packing three codes and reading them back. */
  lemma FieldsOfScalar(m: Matrix, i: nat)
    requires i < 3
    ensures Column(Scalar(m), i) == (RowScale(Row(m, i)) & 3) as nat
    ensures Negative(Scalar(m), i) <==> RowScale(Row(m, i)) & 4 != 0
  {
    hide RowScale;
    RowScaleSmall(Row(m, 0));
    RowScaleSmall(Row(m, 1));
    RowScaleSmall(Row(m, 2));
    Unpack(RowScale(Row(m, 0)), RowScale(Row(m, 1)), RowScale(Row(m, 2)));
  }

  lemma RowScaleSmall(row: seq<int>)
    requires |row| == 3
    ensures RowScale(row) < 8
  {
  }

  lemma Unpack(b: bv16, c: bv16, d: bv16)
    requires b < 8 && c < 8 && d < 8
    ensures
      var o := b | (c << 3) | (d << 6);
      && o & 3 == b & 3 && (o >> 3) & 3 == c & 3 && (o >> 6) & 3 == d & 3
      && (o & 4 != 0 <==> b & 4 != 0) && (o & 0x20 != 0 <==> c & 4 != 0) && (o & 0x100 != 0 <==> d & 4 != 0)
  {
  }

  // ----- conversion -----

  type Vector = v: seq<int32> | |v| == 3 witness [0, 0, 0]

  /** A 32-bit product with plus or minus one. */
  function Signed(x: int32, negative: bool): int32 {
    var n: int := x;
    if negative then S32(-n) else n
  }

  /** No index leaves the three-element arrays. */
  predicate InRange(o: bv16) {
    Column(o, 0) < 3 && Column(o, 1) < 3 && Column(o, 2) < 3
  }

  function ToBody(o: bv16, v: Vector): Vector
    requires InRange(o)
  {
    [Signed(v[Column(o, 0)], Negative(o, 0)),
     Signed(v[Column(o, 1)], Negative(o, 1)),
     Signed(v[Column(o, 2)], Negative(o, 2))]
  }

  /** The three stores of `inv_convert_to_chip` into an output that held `was`. */
  function ToChip(o: bv16, v: Vector, was: Vector): Vector
    requires InRange(o)
  {
    was[Column(o, 0) := Signed(v[0], Negative(o, 0))]
       [Column(o, 1) := Signed(v[1], Negative(o, 1))]
       [Column(o, 2) := Signed(v[2], Negative(o, 2))]
  }

  // ----- what the conversions mean -----

  /** One number of plus or minus one, the rest zero. */
  predicate UnitRow(row: seq<int>)
    requires |row| == 3
  {
    || (Abs(row[0]) == 1 && row[1] == row[2] == 0)
    || (Abs(row[1]) == 1 && row[0] == row[2] == 0)
    || (Abs(row[2]) == 1 && row[0] == row[1] == 0)
  }

  predicate UnitRows(m: Matrix) {
    UnitRow(Row(m, 0)) && UnitRow(Row(m, 1)) && UnitRow(Row(m, 2))
  }

  function ColumnOf(m: Matrix, j: nat): (r: seq<int>)
    requires j < 3
    ensures |r| == 3
  {
    [m[j], m[3 + j], m[6 + j]]
  }

  /** A signed permutation: one number of plus or minus one in each row and in each column. */
  predicate SignedPermutation(m: Matrix) {
    UnitRows(m) && UnitRow(ColumnOf(m, 0)) && UnitRow(ColumnOf(m, 1)) && UnitRow(ColumnOf(m, 2))
  }

  function Dot(row: seq<int>, v: Vector): int
    requires |row| == 3
  {
    row[0] * v[0] + row[1] * v[1] + row[2] * v[2]
  }

  lemma RowCode(row: seq<int>)
    requires |row| == 3 && UnitRow(row)
    ensures
      var b := RowScale(row);
      var c := (b & 3) as nat;
      && c < 3 && row[c] == (if b & 4 != 0 then -1 else 1)
      && forall j :: 0 <= j < 3 && j != c ==> row[j] == 0
  {
  }

  lemma RowProduct(row: seq<int>, v: Vector)
    requires |row| == 3 && UnitRow(row)
    ensures
      var b := RowScale(row);
      var c := (b & 3) as nat;
      c < 3 && Signed(v[c], b & 4 != 0) == S32(Dot(row, v))
  {
    RowCode(row);
    var c := (RowScale(row) & 3) as nat;
    assert c == 0 || c == 1 || c == 2;
    assert Dot(row, v) == row[c] * v[c];
  }

  lemma Codes(m: Matrix)
    requires UnitRows(m)
    ensures InRange(Scalar(m))
  {
    FieldsOfScalar(m, 0);
    FieldsOfScalar(m, 1);
    FieldsOfScalar(m, 2);
    RowCode(Row(m, 0));
    RowCode(Row(m, 1));
    RowCode(Row(m, 2));
  }

  /** Converting to the body frame is multiplying by the matrix. */
  lemma BodyIsProduct(m: Matrix, v: Vector, i: nat)
    requires UnitRows(m) && i < 3
    ensures InRange(Scalar(m)) && ToBody(Scalar(m), v)[i] == S32(Dot(Row(m, i), v))
  {
    hide RowScale, Scalar, UnitRow, Dot;
    Codes(m);
    FieldsOfScalar(m, i);
    RowProduct(Row(m, i), v);
  }

  /** No two outputs read the same input. */
  predicate Distinct(o: bv16) {
    Column(o, 0) != Column(o, 1) && Column(o, 0) != Column(o, 2) && Column(o, 1) != Column(o, 2)
  }

  /** The column of the number in row `i`. */
  lemma UnitOf(m: Matrix, i: nat) returns (c: nat)
    requires UnitRows(m) && i < 3
    ensures c == Column(Scalar(m), i) < 3
    ensures Row(m, i)[c] == if Negative(Scalar(m), i) then -1 else 1
    ensures forall j :: 0 <= j < 3 && j != c ==> Row(m, i)[j] == 0
  {
    hide RowScale, Scalar, UnitRow;
    FieldsOfScalar(m, i);
    RowCode(Row(m, i));
    c := Column(Scalar(m), i);
  }

  /** The codes of the signed permutations are the ones whose columns differ. */
  lemma PermutationsAreDistinct(m: Matrix)
    requires UnitRows(m)
    ensures InRange(Scalar(m)) && (SignedPermutation(m) <==> Distinct(Scalar(m)))
  {
    hide RowScale, Scalar, Column, Negative, UnitRows;
    var c0 := UnitOf(m, 0);
    var c1 := UnitOf(m, 1);
    var c2 := UnitOf(m, 2);
    UnitColumn(m, c0, c1, c2, 0);
    UnitColumn(m, c0, c1, c2, 1);
    UnitColumn(m, c0, c1, c2, 2);
  }

  lemma UnitColumn(m: Matrix, c0: nat, c1: nat, c2: nat, j: nat)
    requires c0 < 3 && c1 < 3 && c2 < 3 && j < 3
    requires Abs(Row(m, 0)[j]) == if j == c0 then 1 else 0
    requires Abs(Row(m, 1)[j]) == if j == c1 then 1 else 0
    requires Abs(Row(m, 2)[j]) == if j == c2 then 1 else 0
    ensures UnitRow(ColumnOf(m, j)) <==>
      (j == c0 && j != c1 && j != c2) || (j != c0 && j == c1 && j != c2) || (j != c0 && j != c1 && j == c2)
  {
    assert Row(m, 0)[j] == m[j] && Row(m, 1)[j] == m[3 + j] && Row(m, 2)[j] == m[6 + j];
  }

  lemma Negated(x: int32)
    ensures Signed(x, true) == if x == -TWO_31 then x else -(x as int)
  {
  }

  lemma SignedTwice(x: int32, negative: bool)
    ensures Signed(Signed(x, negative), negative) == x
  {
    Negated(x);
    Negated(Signed(x, true));
  }

  lemma ChipAfterBody(o: bv16, v: Vector, was: Vector)
    requires InRange(o) && Distinct(o)
    ensures ToChip(o, ToBody(o, v), was) == v
  {
    hide Column, Negative, Signed;
    SignedTwice(v[Column(o, 0)], Negative(o, 0));
    SignedTwice(v[Column(o, 1)], Negative(o, 1));
    SignedTwice(v[Column(o, 2)], Negative(o, 2));
    var r := ToChip(o, ToBody(o, v), was);
    assert r[Column(o, 0)] == v[Column(o, 0)];
    assert r[Column(o, 1)] == v[Column(o, 1)];
    assert r[Column(o, 2)] == v[Column(o, 2)];
    assert {Column(o, 0), Column(o, 1), Column(o, 2)} == {0, 1, 2};
    assert r[0] == v[0] && r[1] == v[1] && r[2] == v[2];
  }

  lemma BodyAfterChip(o: bv16, w: Vector, was: Vector)
    requires InRange(o) && Distinct(o)
    ensures ToBody(o, ToChip(o, w, was)) == w
  {
    hide Column, Negative, Signed;
    SignedTwice(w[0], Negative(o, 0));
    SignedTwice(w[1], Negative(o, 1));
    SignedTwice(w[2], Negative(o, 2));
  }

  /** Each conversion undoes the other, for every vector and whatever the output held before, exactly
      when no two columns are the same: for the matrices above, the signed permutations. */
  lemma ConversionsAreInverse(o: bv16)
    requires InRange(o)
    ensures (forall v: Vector, was: Vector :: ToChip(o, ToBody(o, v), was) == v) <==> Distinct(o)
    ensures (forall w: Vector, was: Vector :: ToBody(o, ToChip(o, w, was)) == w) <==> Distinct(o)
  {
    hide Column, Negative, Signed, ToBody, ToChip, Distinct;
    if Distinct(o) {
      forall v: Vector, was: Vector
        ensures ToChip(o, ToBody(o, v), was) == v && ToBody(o, ToChip(o, v, was)) == v
      {
        ChipAfterBody(o, v, was);
        BodyAfterChip(o, v, was);
      }
    } else {
      var v, was := Clash(o);
      var w, was' := Overwritten(o);
    }
  }

  /** With two equal columns some output of the chip conversion is not written at all. */
  lemma Clash(o: bv16) returns (v: Vector, was: Vector)
    requires InRange(o) && !Distinct(o)
    ensures ToChip(o, ToBody(o, v), was) != v
  {
    hide Column, Negative;
    v, was := [0, 0, 0], [1, 1, 1];
    var r := ToChip(o, ToBody(o, v), was);
    var c0, c1, c2 := Column(o, 0), Column(o, 1), Column(o, 2);
    var free := if 0 != c0 && 0 != c1 && 0 != c2 then 0 else if 1 != c0 && 1 != c1 && 1 != c2 then 1 else 2;
    assert r[free] == 1;
  }

  lemma Overwritten(o: bv16) returns (w: Vector, was: Vector)
    requires InRange(o) && !Distinct(o)
    ensures ToBody(o, ToChip(o, w, was)) != w
  {
    hide Column, Negative;
    w, was := if Column(o, 0) == Column(o, 1) then [0, 1, 0] else [0, 0, 1], [0, 0, 0];
    if Column(o, 0) != Column(o, 1) && Column(o, 0) != Column(o, 2) {
      assert Column(o, 1) == Column(o, 2);
    }
  }

  /** Converting to the chip frame is multiplying by the transposed matrix. */
  lemma ChipIsTransposedProduct(m: Matrix, v: Vector, was: Vector, j: nat)
    requires SignedPermutation(m) && j < 3
    ensures InRange(Scalar(m)) && ToChip(Scalar(m), v, was)[j] == S32(Dot(ColumnOf(m, j), v))
  {
    hide RowScale, Scalar, Column, Negative, UnitRows, UnitRow, S32, Dot, Signed;
    PermutationsAreDistinct(m);
    var c0 := UnitOf(m, 0);
    var c1 := UnitOf(m, 1);
    var c2 := UnitOf(m, 2);
    var i := if j == c0 then 0 else if j == c1 then 1 else 2;
    assert ToChip(Scalar(m), v, was)[j] == Signed(v[i], Negative(Scalar(m), i));
    assert Row(m, 0)[j] == m[j] && Row(m, 1)[j] == m[3 + j] && Row(m, 2)[j] == m[6 + j];
    DotOfUnit(ColumnOf(m, j), v, i);
    SignedIsProduct(v[i], Negative(Scalar(m), i));
  }

  lemma DotOfUnit(row: seq<int>, v: Vector, i: nat)
    requires |row| == 3 && i < 3 && forall k :: 0 <= k < 3 && k != i ==> row[k] == 0
    ensures Dot(row, v) == row[i] * v[i]
  {
    assert i == 0 || i == 1 || i == 2;
  }

  lemma SignedIsProduct(x: int32, negative: bool)
    ensures Signed(x, negative) == S32((if negative then -1 else 1) * x)
  {
  }

  function Product(m: Matrix, v: Vector): Vector {
    [S32(Dot(Row(m, 0), v)), S32(Dot(Row(m, 1), v)), S32(Dot(Row(m, 2), v))]
  }

  function TransposedProduct(m: Matrix, v: Vector): Vector {
    [S32(Dot(ColumnOf(m, 0), v)), S32(Dot(ColumnOf(m, 1), v)), S32(Dot(ColumnOf(m, 2), v))]
  }

  lemma BodyOfMatrix(m: Matrix, v: Vector)
    requires UnitRows(m)
    ensures InRange(Scalar(m)) && ToBody(Scalar(m), v) == Product(m, v)
  {
    hide Scalar, Dot, S32;
    BodyIsProduct(m, v, 0);
    BodyIsProduct(m, v, 1);
    BodyIsProduct(m, v, 2);
  }

  lemma ChipOfMatrix(m: Matrix, v: Vector, was: Vector)
    requires SignedPermutation(m)
    ensures InRange(Scalar(m)) && ToChip(Scalar(m), v, was) == TransposedProduct(m, v)
  {
    hide Scalar, Dot, S32;
    ChipIsTransposedProduct(m, v, was, 0);
    ChipIsTransposedProduct(m, v, was, 1);
    ChipIsTransposedProduct(m, v, was, 2);
  }

  /** `inv_convert_to_body`: with the code of a matrix of unit rows, the product with it. */
  method ConvertToBody(o: bv16, input: array<int32>, output: array<int32>)
    requires InRange(o) && input.Length == 3 && output.Length == 3 && input != output
    modifies output
    ensures output[..] == ToBody(o, input[..])
    ensures forall m: Matrix :: UnitRows(m) && Scalar(m) == o ==> output[..] == Product(m, input[..])
  {
    hide Scalar, UnitRows, Product, Signed, Column, Negative;
    output[0] := Signed(input[Column(o, 0)], Negative(o, 0));
    output[1] := Signed(input[Column(o, 1)], Negative(o, 1));
    output[2] := Signed(input[Column(o, 2)], Negative(o, 2));
    forall m: Matrix | UnitRows(m) && Scalar(m) == o
      ensures output[..] == Product(m, input[..])
    {
      BodyOfMatrix(m, input[..]);
    }
  }

  /** `inv_convert_to_chip`: with the code of a signed permutation, the product with its transpose. */
  method ConvertToChip(o: bv16, input: array<int32>, output: array<int32>)
    requires InRange(o) && input.Length == 3 && output.Length == 3 && input != output
    modifies output
    ensures output[..] == ToChip(o, input[..], old(output[..]))
    ensures forall m: Matrix :: SignedPermutation(m) && Scalar(m) == o ==> output[..] == TransposedProduct(m, input[..])
  {
    hide Scalar, SignedPermutation, TransposedProduct, Signed, Column, Negative;
    output[Column(o, 0)] := Signed(input[0], Negative(o, 0));
    output[Column(o, 1)] := Signed(input[1], Negative(o, 1));
    output[Column(o, 2)] := Signed(input[2], Negative(o, 2));
    forall m: Matrix | SignedPermutation(m) && Scalar(m) == o
      ensures output[..] == TransposedProduct(m, input[..])
    {
      ChipOfMatrix(m, input[..], old(output[..]));
    }
  }

  /** The code that `set_sensor_orientation_and_scale` stores: the identity for an impossible one. */
  function Checked(o: bv16): bv16 {
    if o & 3 == 3 || o & 0x18 == 0x18 || o & 0xc0 == 0xc0 then 0x88 else o
  }

  /** A checked code is safe to index with; exactly the safe ones are kept, and any other one becomes that of
      the identity. */
  lemma CheckedInRange(o: bv16)
    ensures InRange(Checked(o)) && (Checked(o) == o <==> InRange(o))
    ensures !InRange(o) ==> Checked(o) == Scalar([1, 0, 0, 0, 1, 0, 0, 0, 1]) && forall v :: ToBody(Checked(o), v) == v
  {
    FieldMasks(o);
    FieldMasks(0x88);
    KnownCodes();
  }

  /** The codes of the identity and of a matrix that turns and mirrors. */
  lemma KnownCodes()
    ensures Scalar([1, 0, 0, 0, 1, 0, 0, 0, 1]) == 0x88
    ensures Scalar([0, -1, 0, 0, 0, 1, -1, 0, 0]) == 0x115
  {
    assert Row([1, 0, 0, 0, 1, 0, 0, 0, 1], 0) == [1, 0, 0] && Row([1, 0, 0, 0, 1, 0, 0, 0, 1], 1) == [0, 1, 0];
    assert Row([1, 0, 0, 0, 1, 0, 0, 0, 1], 2) == [0, 0, 1];
  }

  lemma FieldMasks(o: bv16)
    ensures (o >> 3) & 3 == 3 <==> o & 0x18 == 0x18
    ensures (o >> 6) & 3 == 3 <==> o & 0xc0 == 0xc0
    ensures o & 3 <= 3 && (o >> 3) & 3 <= 3 && (o >> 6) & 3 <= 3
  {
  }

  /** The check does not ask for different columns: code 0 reads one number three times and is kept. */
  lemma CheckKeepsClashes()
    ensures Checked(0) == 0 && InRange(0) && !Distinct(0)
  {
  }

  // ----- the kernel's copy -----

  /** The kernel's `inv_q30_mult`: an unsigned 64-bit product of the sign-extended factors, shifted
      right by 30 and cut to 32 bits. */
  function KernelQ30Mult(a: int32, b: int32): int32 {
    S32(U64(U64(a) * U64(b)) / ONE)
  }

  lemma ProductModulo(a: int, b: int)
    ensures U64(U64(a) * U64(b)) == U64(a * b)
  {
    var i, j := a / TWO_64, b / TWO_64;
    var x: int, y: int := U64(a), U64(b);
    assert a == TWO_64 * i + x && b == TWO_64 * j + y;
    assert a * b == x * y + TWO_64 * (i * y + j * x + TWO_64 * (i * j)) by {
      ProductParts(TWO_64, i, x, j, y);
    }
    SameModulo(x * y, i * y + j * x + TWO_64 * (i * j));
  }

  lemma ProductParts(t: int, i: int, x: int, j: int, y: int)
    ensures (t * i + x) * (t * j + y) == x * y + t * (i * y + j * x + t * (i * j))
  {
  }

  lemma SameModulo(x: int, k: int)
    ensures U64(x + TWO_64 * k) == U64(x)
  {
  }

  lemma ShiftOfModulo(p: int)
    ensures S32(U64(p) / ONE) == S32(p / ONE)
  {
    var k := p / TWO_64;
    var x: int := U64(p);
    var q := x / ONE;
    assert p == TWO_64 * k + x;
    QuotientIs(p, ONE, 0x4_0000_0000 * k + q);
    SameLow(q, 4 * k);
  }

  lemma SameLow(q: int, k: int)
    ensures S32(q + TWO_32 * k) == S32(q)
  {
  }

  /** The two multiplications agree on all inputs, in either order of the factors. */
  lemma KernelAgrees(a: int32, b: int32)
    ensures KernelQ30Mult(a, b) == Q30Mult(a, b) == Q30Mult(b, a)
  {
    hide U64, S32;
    ProductModulo(a, b);
    ShiftOfModulo(a * b);
    assert a * b == b * a;
  }

  /** `inv_get_accel_bias_dmp_units`: to the body frame, scaled by 2^29 in Q30. */
  function ScaledBody(o: bv16, sensitivity: int32, v: Vector): Vector
    requires InRange(o)
  {
    var b := ToBody(o, v);
    [Q30Mult(b[0], sensitivity), Q30Mult(b[1], sensitivity), Q30Mult(b[2], sensitivity)]
  }

  /** `inv_convert_to_body_with_scale`: with the code of a matrix of unit rows, the scaled product. */
  method ConvertToBodyWithScale(o: bv16, sensitivity: int32, input: array<int32>, output: array<int32>)
    requires InRange(o) && input.Length == 3 && output.Length == 3 && input != output
    modifies output
    ensures output[..] == ScaledBody(o, sensitivity, input[..])
    ensures forall m: Matrix :: UnitRows(m) && Scalar(m) == o ==>
      forall i :: 0 <= i < 3 ==> output[i] == Q30Mult(Product(m, input[..])[i], sensitivity)
  {
    hide Q30Mult, Scalar, UnitRows, Product, Signed, Column, Negative;
    output[0] := Q30Mult(Signed(input[Column(o, 0)], Negative(o, 0)), sensitivity);
    output[1] := Q30Mult(Signed(input[Column(o, 1)], Negative(o, 1)), sensitivity);
    output[2] := Q30Mult(Signed(input[Column(o, 2)], Negative(o, 2)), sensitivity);
    forall m: Matrix | UnitRows(m) && Scalar(m) == o
      ensures forall i :: 0 <= i < 3 ==> output[i] == Q30Mult(Product(m, input[..])[i], sensitivity)
    {
      BodyOfMatrix(m, input[..]);
    }
  }

  /** With the accelerometer's scale each number is half of the product with the matrix, rounded
      down. */
  lemma AccelBiasIsHalf(m: Matrix, v: Vector, i: nat)
    requires UnitRows(m) && i < 3
    ensures InRange(Scalar(m)) && ScaledBody(Scalar(m), ACCEL_SCALE, v)[i] == S32(Dot(Row(m, i), v)) / 2
  {
    hide RowScale, Scalar, UnitRow, Dot, S32;
    BodyIsProduct(m, v, i);
    HalfOf(S32(Dot(Row(m, i), v)));
  }

  lemma HalfOf(x: int32)
    ensures Q30Mult(x, ACCEL_SCALE) == x / 2
  {
  }

  function BeWords(v: seq<int32>): (b: seq<byte>)
    ensures |b| == 4 * |v|
  {
    if v == [] then [] else Be32(U32(v[0])) + BeWords(v[1..])
  }

  function FromBeWords(b: seq<byte>): (v: seq<int32>)
    requires |b| % 4 == 0
    ensures |v| == |b| / 4
  {
    if b == [] then [] else [S32(FromBe32(b))] + FromBeWords(b[4..])
  }

  lemma {:induction false} BeWordsRoundTrip(v: seq<int32>)
    ensures FromBeWords(BeWords(v)) == v
  {
    hide Be32, FromBe32, U32, S32;
    if v != [] {
      Be32RoundTrip(U32(v[0]), BeWords(v[1..]));
      SignedRoundTrip(0, v[0]);
      assert BeWords(v)[4..] == BeWords(v[1..]);
      BeWordsRoundTrip(v[1..]);
    }
  }

  /** The first two loops of `inv_set_accel_bias_dmp`: a table of signs, then the turned bias. */
  method KernelBody(o: bv16, bias: Vector) returns (body: array<int32>)
    requires InRange(o)
    ensures fresh(body) && body.Length == 3 && body[..] == ToBody(o, bias)
  {
    hide Column, Negative, S32;
    var sign := new int[3](_ => 1);
    var i := 0;
    while i < 3
      invariant i <= 3
      invariant forall k :: 0 <= k < i ==> sign[k] == if Negative(o, k) then -1 else 1
      invariant forall k :: i <= k < 3 ==> sign[k] == 1
    {
      if Negative(o, i) {
        sign[i] := -1;
      }
      i := i + 1;
    }
    body := new int32[3](_ => 0);
    i := 0;
    while i < 3
      invariant i <= 3
      invariant forall k :: 0 <= k < i ==> body[k] == ToBody(o, bias)[k]
      invariant forall k :: 0 <= k < 3 ==> sign[k] == if Negative(o, k) then -1 else 1
    {
      assert Column(o, i) < 3;
      var b: int := bias[Column(o, i)];
      body[i] := S32(sign[i] * b);
      SignedIsProduct(b, Negative(o, i));
      i := i + 1;
    }
  }

  /** All three loops. */
  method KernelBias(o: bv16, bias: Vector) returns (r: Vector)
    requires InRange(o)
    ensures r == ScaledBody(o, ACCEL_SCALE, bias)
  {
    hide Q30Mult, KernelQ30Mult, ToBody;
    var body := KernelBody(o, bias);
    ghost var turned := ToBody(o, bias);
    var i := 0;
    while i < 3
      invariant i <= 3
      invariant forall k :: 0 <= k < i ==> body[k] == Q30Mult(turned[k], ACCEL_SCALE)
      invariant forall k :: i <= k < 3 ==> body[k] == turned[k]
    {
      KernelAgrees(ACCEL_SCALE, body[i]);
      body[i] := KernelQ30Mult(ACCEL_SCALE, body[i]);
      i := i + 1;
    }
    r := body[..];
  }

  /** `inv_set_accel_bias_dmp`: the driver turns and halves the bias itself and writes three
      big-endian words. What it sends to the chip is the library's vector. */
  method SetAccelBiasDmp(chip: Chip, keyAddress: u32, orientation: Matrix, bias: Vector) returns (res: bv32)
    requires chip.Valid() && InRange(Scalar(orientation)) && keyAddress <= MAX_MEM
    modifies chip, chip.ram
    ensures res == 0 ==>
      chip.Flat() == Splice(old(chip.Flat()), keyAddress,
                            BeWords(ScaledBody(Scalar(orientation), ACCEL_SCALE, bias)))
    ensures res == 0 <==> chip.Quiet(old(chip.transfers), chip.transfers)
  {
    hide Scalar, Q30Mult, BeWords, Splice, Column, ToBody, InRange;
    var o := Scalar(orientation);
    var body := KernelBias(o, bias);
    res := chip.WriteUnaligned(keyAddress, BeWords(body));
  }
}
