/**
  Nearest-neighbour resize of a row-major pixel buffer in 16.16 fixed point
  (`scale_buffer`). `v << 16` is written `v * ONE` and `v >> 16` is `v / ONE`;
  all values are non-negative, so the two agree with the machine operations
  as long as nothing overflows `usize`, which `FitsUsize` guarantees.
*/
module Renderer {
  import opened Common

  /** 1.0 in 16.16 fixed point. */
  const ONE: nat := 0x1_0000

  /**
    `(src << 16) / dest`: the source step per destination pixel, `src / dest`
    in 16.16 fixed point rounded down, so `dest` steps never pass `src` pixels.
  */
  function Ratio(src: nat, dest: nat): (r: nat)
    requires dest > 0
    ensures dest * r <= src * ONE < dest * (r + 1)
  {
    var n := src * ONE;
    assert n == dest * (n / dest) + n % dest;
    n / dest
  }

  /**
    `(d * ratio) >> 16`: the source coordinate sampled for destination
    coordinate `d`, the whole part of the fixed-point product.
  */
  function Sample(d: nat, ratio: nat): (s: nat)
    ensures ONE * s <= d * ratio < ONE * (s + 1)
  {
    var p := d * ratio;
    assert p == ONE * (p / ONE) + p % ONE;
    p / ONE
  }

  /** The dimensions `scale_buffer` never divides by zero on, never indexes its input out of bounds on. */
  predicate Dimensions(bufferLength: nat, srcWidth: nat, srcHeight: nat, destWidth: nat, destHeight: nat)
  {
    srcWidth > 0 && srcHeight > 0 && destWidth > 0 && destHeight > 0 &&
    bufferLength >= srcWidth * srcHeight
  }

  /**
    The sizes for which no intermediate value of `scale_buffer` exceeds a 64-bit
    `usize`; `srcWidth * srcHeight` is bounded by the length of the input slice.
  */
  predicate FitsUsize(srcWidth: nat, srcHeight: nat, destWidth: nat, destHeight: nat)
  {
    srcWidth * ONE < USIZE_LIMIT && srcHeight * ONE < USIZE_LIMIT &&
    srcWidth * srcHeight < USIZE_LIMIT && destWidth * destHeight < USIZE_LIMIT
  }

  /** The fixed-point product for a destination coordinate stays below the source extent. */
  lemma {:induction false} ProductBelow(d: nat, src: nat, dest: nat)
    requires src > 0 && d < dest
    ensures d * Ratio(src, dest) < src * ONE
  {
    var ratio := Ratio(src, dest);
    MulLeft(d, dest - 1, ratio);
    assert (dest - 1) * ratio == dest * ratio - ratio;
  }

  /** Every sampled coordinate lies inside the source (truncation keeps the ratio from overshooting). */
  lemma {:induction false} SampleBelow(d: nat, src: nat, dest: nat)
    requires src > 0 && d < dest
    ensures Sample(d, Ratio(src, dest)) < src
  {
    var p := d * Ratio(src, dest);
    ProductBelow(d, src, dest);
    assert p == ONE * (p / ONE) + p % ONE;
  }

  /** Sampled source coordinates never decrease as the destination coordinate grows. */
  lemma {:induction false} SampleMonotonic(a: nat, b: nat, ratio: nat)
    requires a <= b
    ensures Sample(a, ratio) <= Sample(b, ratio)
  {
    MulLeft(a, b, ratio);
    var p, q := a * ratio, b * ratio;
    assert p == ONE * (p / ONE) + p % ONE;
    assert q == ONE * (q / ONE) + q % ONE;
  }

  /** Row-major coordinates are recovered from a flat index by `/` and `%`. */
  lemma {:induction false} RowMajorSplit(x: nat, y: nat, width: nat)
    requires x < width
    ensures (y * width + x) / width == y && (y * width + x) % width == x
  {
    DivUnique(y * width + x, width, y, x);
  }

  /** A flat index below `width * height` names a cell of the grid. */
  lemma {:induction false} FlatSplit(i: nat, width: nat, height: nat)
    requires i < width * height
    ensures i % width < width && i / width < height
  {
    assert width > 0;
    assert i == width * (i / width) + i % width;
    if i / width >= height {
      MulLeft(height, i / width, width);
    }
  }

  /** `src_y * src_width + src_x` for destination pixel `(x, y)`: always a valid source index. */
  function SourceIndex(srcWidth: nat, srcHeight: nat, destWidth: nat, destHeight: nat, x: nat, y: nat): (i: nat)
    requires srcWidth > 0 && srcHeight > 0 && x < destWidth && y < destHeight
    ensures i < srcWidth * srcHeight
  {
    var srcX := Sample(x, Ratio(srcWidth, destWidth));
    var srcY := Sample(y, Ratio(srcHeight, destHeight));
    SampleBelow(x, srcWidth, destWidth);
    SampleBelow(y, srcHeight, destHeight);
    RowMajorBelow(srcX, srcY, srcWidth, srcHeight);
    srcY * srcWidth + srcX
  }

  /** The destination pixel at flat index `i`, read from the source. */
  function PixelAt(buffer: seq<U32>, srcWidth: nat, srcHeight: nat, destWidth: nat, destHeight: nat, i: nat): U32
    requires Dimensions(|buffer|, srcWidth, srcHeight, destWidth, destHeight)
    requires i < destWidth * destHeight
  {
    FlatSplit(i, destWidth, destHeight);
    buffer[SourceIndex(srcWidth, srcHeight, destWidth, destHeight, i % destWidth, i / destWidth)]
  }

  /** The reference result of `scale_buffer`: one source sample per destination pixel, row-major. */
  function Scaled(buffer: seq<U32>, srcWidth: nat, srcHeight: nat, destWidth: nat, destHeight: nat): (s: seq<U32>)
    requires Dimensions(|buffer|, srcWidth, srcHeight, destWidth, destHeight)
    ensures |s| == destWidth * destHeight
  {
    seq(destWidth * destHeight, i requires 0 <= i < destWidth * destHeight =>
      PixelAt(buffer, srcWidth, srcHeight, destWidth, destHeight, i))
  }

  /**
    The output has exactly `destWidth * destHeight` pixels, and pixel `(x, y)` is
    the source pixel at `(src_x, src_y)`.
  */
  lemma {:induction false} ScaledAt(buffer: seq<U32>, srcWidth: nat, srcHeight: nat, destWidth: nat, destHeight: nat, x: nat, y: nat)
    requires Dimensions(|buffer|, srcWidth, srcHeight, destWidth, destHeight)
    requires x < destWidth && y < destHeight
    ensures |Scaled(buffer, srcWidth, srcHeight, destWidth, destHeight)| == destWidth * destHeight
    ensures y * destWidth + x < destWidth * destHeight
    ensures Scaled(buffer, srcWidth, srcHeight, destWidth, destHeight)[y * destWidth + x]
         == buffer[SourceIndex(srcWidth, srcHeight, destWidth, destHeight, x, y)]
  {
    var i := y * destWidth + x;
    RowMajorBelow(x, y, destWidth, destHeight);
    RowMajorSplit(x, y, destWidth);
    assert i % destWidth == x && i / destWidth == y;
    assert Scaled(buffer, srcWidth, srcHeight, destWidth, destHeight)[i]
        == PixelAt(buffer, srcWidth, srcHeight, destWidth, destHeight, i);
  }

  /** Every output pixel is a pixel of the `srcWidth * srcHeight` source image. */
  lemma {:induction false} ScaledFromSource(buffer: seq<U32>, srcWidth: nat, srcHeight: nat, destWidth: nat, destHeight: nat)
    requires Dimensions(|buffer|, srcWidth, srcHeight, destWidth, destHeight)
    ensures forall i :: 0 <= i < destWidth * destHeight ==>
      Scaled(buffer, srcWidth, srcHeight, destWidth, destHeight)[i] in buffer[..srcWidth * srcHeight]
  {
    forall i | 0 <= i < destWidth * destHeight
      ensures Scaled(buffer, srcWidth, srcHeight, destWidth, destHeight)[i] in buffer[..srcWidth * srcHeight]
    {
      FlatSplit(i, destWidth, destHeight);
      var j := SourceIndex(srcWidth, srcHeight, destWidth, destHeight, i % destWidth, i / destWidth);
      assert Scaled(buffer, srcWidth, srcHeight, destWidth, destHeight)[i] == buffer[j];
      assert buffer[..srcWidth * srcHeight][j] == buffer[j];
    }
  }

  /** The ratio of a dimension to itself is exactly 1.0, so sampling is the identity. */
  lemma RatioSelf(n: nat, d: nat)
    requires n > 0
    ensures Ratio(n, n) == ONE && Sample(d, ONE) == d
  {
    DivUnique(n * ONE, n, ONE, 0);
    DivUnique(d * ONE, ONE, d, 0);
  }

  /** Scaling to the source's own size is the identity on the source image. */
  lemma {:induction false} ScaleIdentity(buffer: seq<U32>, width: nat, height: nat)
    requires Dimensions(|buffer|, width, height, width, height)
    ensures Ratio(width, width) == ONE && Ratio(height, height) == ONE
    ensures Scaled(buffer, width, height, width, height) == buffer[..width * height]
  {
    RatioSelf(width, 0);
    RatioSelf(height, 0);
    var r := Scaled(buffer, width, height, width, height);
    forall i | 0 <= i < width * height
      ensures r[i] == buffer[i]
    {
      FlatSplit(i, width, height);
      var x, y := i % width, i / width;
      RatioSelf(width, x);
      RatioSelf(height, y);
      assert r[i] == buffer[SourceIndex(width, height, width, height, x, y)];
      assert i == y * width + x;
    }
  }

  /** Half the width of the destination per pixel: the ratio is `1 << 15` and sampling halves. */
  lemma RatioHalf(n: nat, k: nat, d: nat)
    requires n > 0 && d < 2
    ensures Ratio(n, 2 * n) == ONE / 2 && Sample(2 * k + d, ONE / 2) == k
  {
    DivUnique(n * ONE, 2 * n, ONE / 2, 0);
    DivUnique((2 * k + d) * (ONE / 2), ONE, k, d * (ONE / 2));
  }

  /**
    Doubling both dimensions gives the ratio `1 << 15`, so every 2x2 block of the
    output repeats one source pixel.
  */
  lemma {:induction false} ScaleDouble(buffer: seq<U32>, srcWidth: nat, srcHeight: nat, x: nat, y: nat, dx: nat, dy: nat)
    requires Dimensions(|buffer|, srcWidth, srcHeight, 2 * srcWidth, 2 * srcHeight)
    requires x < srcWidth && y < srcHeight && dx < 2 && dy < 2
    ensures Ratio(srcWidth, 2 * srcWidth) == ONE / 2 && Ratio(srcHeight, 2 * srcHeight) == ONE / 2
    ensures (2 * y + dy) * (2 * srcWidth) + (2 * x + dx) < |Scaled(buffer, srcWidth, srcHeight, 2 * srcWidth, 2 * srcHeight)|
    ensures y * srcWidth + x < srcWidth * srcHeight
    ensures Scaled(buffer, srcWidth, srcHeight, 2 * srcWidth, 2 * srcHeight)[(2 * y + dy) * (2 * srcWidth) + (2 * x + dx)]
         == buffer[y * srcWidth + x]
  {
    RatioHalf(srcWidth, x, dx);
    RatioHalf(srcHeight, y, dy);
    RowMajorBelow(x, y, srcWidth, srcHeight);
    ScaledAt(buffer, srcWidth, srcHeight, 2 * srcWidth, 2 * srcHeight, 2 * x + dx, 2 * y + dy);
  }

  /** Within `FitsUsize`, no shift, product or index of `scale_buffer` leaves `usize`. */
  lemma {:induction false} NoOverflow(srcWidth: nat, srcHeight: nat, destWidth: nat, destHeight: nat, x: nat, y: nat)
    requires srcWidth > 0 && srcHeight > 0 && x < destWidth && y < destHeight
    requires FitsUsize(srcWidth, srcHeight, destWidth, destHeight)
    ensures x * Ratio(srcWidth, destWidth) < USIZE_LIMIT && y * Ratio(srcHeight, destHeight) < USIZE_LIMIT
    ensures y * destWidth + x < USIZE_LIMIT
    ensures SourceIndex(srcWidth, srcHeight, destWidth, destHeight, x, y) < USIZE_LIMIT
  {
    ProductBelow(x, srcWidth, destWidth);
    ProductBelow(y, srcHeight, destHeight);
    RowMajorBelow(x, y, destWidth, destHeight);
  }

  /**
    `scale_buffer`: allocates the `destWidth * destHeight` output and fills it
    row by row. The input is only read.
  */
  method ScaleBuffer(buffer: array<U32>, srcWidth: nat, srcHeight: nat, destWidth: nat, destHeight: nat)
    returns (scaled: array<U32>)
    requires Dimensions(buffer.Length, srcWidth, srcHeight, destWidth, destHeight)
    requires FitsUsize(srcWidth, srcHeight, destWidth, destHeight)
    ensures fresh(scaled)
    ensures scaled[..] == Scaled(buffer[..], srcWidth, srcHeight, destWidth, destHeight)
  {
    ghost var spec := Scaled(buffer[..], srcWidth, srcHeight, destWidth, destHeight);
    scaled := new U32[destWidth * destHeight];
    var xRatio := (srcWidth * ONE) / destWidth;
    var yRatio := (srcHeight * ONE) / destHeight;
    for y := 0 to destHeight
      invariant y * destWidth <= scaled.Length
      invariant forall i :: 0 <= i < y * destWidth ==> scaled[i] == spec[i]
    {
      MulLeft(y + 1, destHeight, destWidth);
      for x := 0 to destWidth
        invariant y * destWidth + destWidth <= scaled.Length
        invariant forall i :: 0 <= i < y * destWidth + x ==> scaled[i] == spec[i]
      {
        var srcX := (x * xRatio) / ONE;
        var srcY := (y * yRatio) / ONE;
        var srcIndex := srcY * srcWidth + srcX;
        ScaledAt(buffer[..], srcWidth, srcHeight, destWidth, destHeight, x, y);
        scaled[y * destWidth + x] := buffer[srcIndex];
      }
    }
    assert scaled[..] == spec;
  }
}
