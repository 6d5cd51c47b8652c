/** How many bytes of client memory a texture upload reads under the unpack state, in 64-bit
    unsigned arithmetic that may wrap. */
module TexImageSpan {
  const INT32_MAX := 0x7FFF_FFFF
  const TWO64 := 0x1_0000_0000_0000_0000

  function U64(x: int): nat {
    x % TWO64
  }

  /** Bitwise `&` of two unsigned integers. */
  function And(x: nat, y: nat): nat {
    if x == 0 || y == 0 then 0
    else (if x % 2 == 1 && y % 2 == 1 then 1 else 0) + 2 * And(x / 2, y / 2)
  }

  /** 64-bit `~`. */
  function Not(x: nat): nat
    requires x < TWO64
  {
    TWO64 - 1 - x
  }

  datatype Upload = Upload(
    pixelBytes: int, width: int, height: int, depth: int, rowLength: int, imageHeight: int,
    alignment: int, skipPixels: int, skipRows: int, skipImages: int)

  predicate Accepted(u: Upload) {
    && u.width > 0 && u.height > 0 && u.depth > 0
    && u.rowLength >= 0 && u.imageHeight >= 0
    && u.skipPixels >= 0 && u.skipRows >= 0 && u.skipImages >= 0
    && u.alignment in {1, 2, 4, 8}
    && u.pixelBytes > 0
  }

  /** The arguments are C `int`s. */
  predicate IntArguments(u: Upload) {
    && u.pixelBytes <= INT32_MAX && u.width <= INT32_MAX && u.height <= INT32_MAX && u.depth <= INT32_MAX
    && u.rowLength <= INT32_MAX && u.imageHeight <= INT32_MAX
    && u.skipPixels <= INT32_MAX && u.skipRows <= INT32_MAX && u.skipImages <= INT32_MAX
  }

  function StorageWidth(u: Upload): int {
    if u.rowLength > 0 then u.rowLength else u.width
  }

  function StorageHeight(u: Upload): int {
    if u.imageHeight > 0 then u.imageHeight else u.height
  }

  function MaskedStride(rowBytes: nat, alignment: nat): nat
    requires 1 <= alignment <= 8
  {
    And(U64(rowBytes + alignment - 1), Not(alignment - 1))
  }

  function Span(u: Upload): int {
    if u.width <= 0 || u.height <= 0 || u.depth <= 0 || u.rowLength < 0 || u.imageHeight < 0 then 0
    else if u.skipPixels < 0 || u.skipRows < 0 || u.skipImages < 0 then 0
    else if u.alignment != 1 && u.alignment != 2 && u.alignment != 4 && u.alignment != 8 then 0
    else if u.pixelBytes <= 0 then 0
    else
      var rowBytes := U64(StorageWidth(u) * u.pixelBytes);
      var rowStride := MaskedStride(rowBytes, u.alignment);
      var imageStride := U64(rowStride * StorageHeight(u));
      var start := U64(U64(U64(u.skipImages * imageStride) + U64(u.skipRows * rowStride))
                       + U64(u.skipPixels * u.pixelBytes));
      var span := U64(U64(U64(start + U64((u.depth - 1) * imageStride)) + U64((u.height - 1) * rowStride))
                      + U64(u.width * u.pixelBytes));
      if span > INT32_MAX then 0 else span
  }

  // --- the mask is rounding ----------------------------------------------------------------

  /** `n` one bits. */
  function Ones(n: nat): nat {
    if n == 0 then 0 else 2 * Ones(n - 1) + 1
  }

  lemma {:induction false} AndOnes(x: nat, n: nat)
    requires x <= Ones(n)
    ensures And(x, Ones(n)) == x
  {
    if n > 0 && x > 0 {
      AndOnes(x / 2, n - 1);
    }
  }

  /** An even mask clears one low bit. */
  lemma AndEven(x: nat, y: nat)
    ensures And(x, 2 * y) == 2 * And(x / 2, y)
  {
    if x != 0 && y != 0 {
      assert 2 * y / 2 == y && 2 * y % 2 == 0;
    }
  }

  const ONES_61 := 0x1FFF_FFFF_FFFF_FFFF

  lemma EightMoreOnes(n: nat)
    ensures Ones(n + 8) == 256 * Ones(n) + 255
  {
    assert Ones(n + 2) == 2 * Ones(n + 1) + 1;
    assert Ones(n + 4) == 2 * Ones(n + 3) + 1;
    assert Ones(n + 6) == 2 * Ones(n + 5) + 1;
  }

  lemma Ones61()
    ensures Ones(61) == ONES_61
    ensures Ones(62) == 2 * ONES_61 + 1 && Ones(63) == 4 * ONES_61 + 3 && Ones(64) == 8 * ONES_61 + 7
  {
    assert Ones(2) == 3 && Ones(4) == 15;
    EightMoreOnes(5);
    EightMoreOnes(13);
    EightMoreOnes(21);
    EightMoreOnes(29);
    EightMoreOnes(37);
    EightMoreOnes(45);
    EightMoreOnes(53);
  }

  /** `x & ~(a - 1)` drops the remainder modulo `a`, for the four alignments. */
  lemma MaskDropsRemainder(x: nat, a: nat)
    requires x < TWO64 && (a == 1 || a == 2 || a == 4 || a == 8)
    ensures And(x, Not(a - 1)) == x - x % a
  {
    hide And, Ones;
    Ones61();
    var half := x / 2;
    var quarter := half / 2;
    if a == 1 {
      AndOnes(x, 64);
    } else if a == 2 {
      AndEven(x, 4 * ONES_61 + 3);
      AndOnes(x / 2, 63);
    } else if a == 4 {
      AndEven(x, 2 * (2 * ONES_61 + 1));
      AndEven(x / 2, 2 * ONES_61 + 1);
      AndOnes(x / 2 / 2, 62);
    } else {
      MaskOfEight(x);
    }
  }

  lemma MaskOfEight(x: nat)
    requires x < TWO64
    ensures And(x, Not(7)) == x - x % 8
  {
    hide And, Ones;
    Ones61();
    AndEven(x, 4 * ONES_61);
    AndEven(x / 2, 2 * ONES_61);
    AndEven(x / 2 / 2, ONES_61);
    AndOnes(x / 2 / 2 / 2, 61);
  }

  // --- the true span -------------------------------------------------------------------------

  /** `rowBytes` rounded up to a multiple of the alignment. */
  function RowStride(u: Upload): nat
    requires Accepted(u)
  {
    var texels := if u.rowLength == 0 then u.width else u.rowLength;
    var n := texels * u.pixelBytes + u.alignment - 1;
    MulPositive(texels, u.pixelBytes);
    n - n % u.alignment
  }

  lemma MulPositive(a: int, b: int)
    requires a >= 0 && b >= 0
    ensures a * b >= 0
  {
  }

  /** The row stride is the least multiple of the alignment that holds a row. */
  lemma StrideRoundsUp(u: Upload)
    requires Accepted(u)
    ensures RowStride(u) % u.alignment == 0
    ensures var rowBytes := StorageWidth(u) * u.pixelBytes;
      rowBytes <= RowStride(u) < rowBytes + u.alignment
  {
    MulPositive(StorageWidth(u), u.pixelBytes);
    RoundsUp(StorageWidth(u) * u.pixelBytes, u.alignment);
  }

  lemma RoundsUp(n: nat, a: nat)
    requires a == 1 || a == 2 || a == 4 || a == 8
    ensures var up := (n + a - 1) - (n + a - 1) % a; up % a == 0 && n <= up < n + a
  {
  }

  /** The byte offset of byte `b` of texel `(x, y, z)` of the uploaded block. */
  function Offset(u: Upload, x: int, y: int, z: int, b: int): int
    requires Accepted(u)
  {
    (u.skipImages + z) * (RowStride(u) * (if u.imageHeight == 0 then u.height else u.imageHeight))
    + (u.skipRows + y) * RowStride(u) + (u.skipPixels + x) * u.pixelBytes + b
  }

  predicate InBlock(u: Upload, x: int, y: int, z: int, b: int) {
    0 <= x < u.width && 0 <= y < u.height && 0 <= z < u.depth && 0 <= b < u.pixelBytes
  }

  function TrueSpan(u: Upload): int
    requires Accepted(u)
  {
    1 + Offset(u, u.width - 1, u.height - 1, u.depth - 1, u.pixelBytes - 1)
  }

  lemma MulMonotone(a: int, b: int, c: int)
    requires a <= b && 0 <= c
    ensures a * c <= b * c
  {
    assert (b - a) * c >= 0;
  }

  /** The true span is one past the largest offset read, and that offset is read. */
  lemma TrueSpanIsTight(u: Upload)
    requires Accepted(u)
    ensures forall x, y, z, b | InBlock(u, x, y, z, b) :: 0 <= Offset(u, x, y, z, b) < TrueSpan(u)
    ensures InBlock(u, u.width - 1, u.height - 1, u.depth - 1, u.pixelBytes - 1)
    ensures Offset(u, u.width - 1, u.height - 1, u.depth - 1, u.pixelBytes - 1) == TrueSpan(u) - 1
  {
    hide RowStride;
    forall x, y, z, b | InBlock(u, x, y, z, b) ensures 0 <= Offset(u, x, y, z, b) < TrueSpan(u) {
      var image := RowStride(u) * StorageHeight(u);
      MulPositive(RowStride(u), StorageHeight(u));
      MulPositive(u.skipImages + z, image);
      MulPositive(u.skipRows + y, RowStride(u));
      MulPositive(u.skipPixels + x, u.pixelBytes);
      MulMonotone(u.skipImages + z, u.skipImages + u.depth - 1, image);
      MulMonotone(u.skipRows + y, u.skipRows + u.height - 1, RowStride(u));
      MulMonotone(u.skipPixels + x, u.skipPixels + u.width - 1, u.pixelBytes);
    }
  }

  // --- wrap-around -----------------------------------------------------------------------------

  lemma WrapAdd(a: int, b: int)
    ensures U64(U64(a) + b) == U64(a + b) && U64(a + U64(b)) == U64(a + b)
  {
  }

  lemma WrapMul(a: int, b: int)
    ensures U64(a * U64(b)) == U64(a * b)
  {
    var q := b / TWO64;
    assert b == q * TWO64 + U64(b);
    calc {
      a * b;
      a * (q * TWO64 + U64(b));
      (a * q) * TWO64 + a * U64(b);
    }
    WrapAddMultiple(a * U64(b), a * q);
  }

  lemma WrapAddMultiple(x: int, k: int)
    ensures U64(k * TWO64 + x) == U64(x)
  {
    var q := x / TWO64;
    assert x == q * TWO64 + U64(x);
    assert k * TWO64 + x == (k + q) * TWO64 + U64(x);
  }

  lemma RowStrideIsMasked(u: Upload)
    requires Accepted(u) && IntArguments(u)
    ensures MaskedStride(U64(StorageWidth(u) * u.pixelBytes), u.alignment) == RowStride(u)
  {
    hide And, U64;
    var rowBytes := StorageWidth(u) * u.pixelBytes;
    MulPositive(StorageWidth(u), u.pixelBytes);
    MulMonotone(StorageWidth(u), INT32_MAX, u.pixelBytes);
    var n := rowBytes + u.alignment - 1;
    Unwrapped(rowBytes);
    Unwrapped(n);
    MaskDropsRemainder(n, u.alignment);
  }

  lemma Unwrapped(x: int)
    requires 0 <= x < TWO64
    ensures U64(x) == x
  {
  }

  /** Reducing every partial sum is reducing the sum. */
  lemma ReducedSum(a: int, b: int, c: int, d: int, e: int, f: int)
    ensures U64(U64(U64(U64(U64(U64(a) + U64(b)) + U64(c)) + U64(d)) + U64(e)) + U64(f))
         == U64(a + b + c + d + e + f)
  {
    hide U64;
    ReducedPair(a, b);
    ReducedPair(a + b, c);
    ReducedPair(a + b + c, d);
    ReducedPair(a + b + c + d, e);
    ReducedPair(a + b + c + d + e, f);
  }

  lemma ReducedPair(a: int, b: int)
    ensures U64(U64(a) + U64(b)) == U64(a + b)
  {
    WrapAdd(a, U64(b));
    WrapAdd(a, b);
  }

  lemma TrueSpanAsSum(u: Upload)
    requires Accepted(u)
    ensures var row := RowStride(u); var image := row * StorageHeight(u);
      TrueSpan(u) == (u.skipImages * image + u.skipRows * row + u.skipPixels * u.pixelBytes)
                     + (u.depth - 1) * image + (u.height - 1) * row + u.width * u.pixelBytes
  {
    hide RowStride;
    var row := RowStride(u);
    var image := row * StorageHeight(u);
    assert (u.skipImages + u.depth - 1) * image == u.skipImages * image + (u.depth - 1) * image;
    assert (u.skipRows + u.height - 1) * row == u.skipRows * row + (u.height - 1) * row;
    assert (u.skipPixels + u.width - 1) * u.pixelBytes
        == u.skipPixels * u.pixelBytes + u.width * u.pixelBytes - u.pixelBytes;
  }

  /** Any other arguments are refused. */
  lemma RefusedIsZero(u: Upload)
    requires !Accepted(u)
    ensures Span(u) == 0
  {
  }

  lemma SpanIsReduced(u: Upload)
    requires Accepted(u) && IntArguments(u)
    ensures Span(u) == if U64(TrueSpan(u)) > INT32_MAX then 0 else U64(TrueSpan(u))
  {
    hide RowStride, MaskedStride, TrueSpan, U64;
    RowStrideIsMasked(u);
    TrueSpanAsSum(u);
    var row := RowStride(u);
    var image := row * StorageHeight(u);
    WrapMul(u.skipImages, image);
    WrapMul(u.depth - 1, image);
    ReducedSum(u.skipImages * image, u.skipRows * row, u.skipPixels * u.pixelBytes,
               (u.depth - 1) * image, (u.height - 1) * row, u.width * u.pixelBytes);
  }

  /** The function answers the true span, or 0 when that exceeds an `int`, exactly when the true
      span does not wrap back into the `int` range. Intermediate overflow alone is harmless. */
  lemma SpanIsExactIff(u: Upload)
    requires Accepted(u) && IntArguments(u)
    ensures var wrapped := TrueSpan(u) % 0x1_0000_0000_0000_0000;
      Span(u) == (if TrueSpan(u) > 0x7FFF_FFFF then 0 else TrueSpan(u)) <==>
        TrueSpan(u) < 0x1_0000_0000_0000_0000 || wrapped > 0x7FFF_FFFF || wrapped == 0
    ensures TrueSpan(u) <= 0x7FFF_FFFF ==> Span(u) == TrueSpan(u)
  {
    hide Span, TrueSpan;
    SpanIsReduced(u);
    TrueSpanIsTight(u);
    assert InBlock(u, 0, 0, 0, 0) && 0 <= Offset(u, 0, 0, 0, 0) < TrueSpan(u);
  }

  /** Four skipped images of 2^62 bytes each, and a span past 2^64 is reported as four bytes. */
  lemma WrappedSpanIsWrong()
    ensures var u := Upload(4, 1, 1, 1, 0x4000_0000, 0x4000_0000, 4, 0, 0, 4);
      Accepted(u) && IntArguments(u) && TrueSpan(u) == TWO64 + 4 && Span(u) == 4
  {
    var u := Upload(4, 1, 1, 1, 0x4000_0000, 0x4000_0000, 4, 0, 0, 4);
    hide Span, MaskedStride, And, TrueSpan;
    assert RowStride(u) == 0x1_0000_0000;
    hide RowStride;
    TrueSpanAsSum(u);
    SpanIsReduced(u);
  }
}
