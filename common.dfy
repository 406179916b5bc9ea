/** Machine-width integer types, the Option wrapper and the row-major arithmetic shared by the modules. */
module Common {

  /** Rust `u8`: a tile value of the ray-cast map. */
  newtype U8 = x: int | 0 <= x < 0x100

  /** Rust `u32`: one packed pixel of a frame buffer. */
  newtype U32 = x: int | 0 <= x < 0x1_0000_0000

  /** `u32::max_value()`. */
  const U32_MAX: U32 := 0xFFFF_FFFF

  /** One more than the largest `usize` value on a 64-bit target. */
  const USIZE_LIMIT: nat := 0x1_0000_0000_0000_0000

  datatype Option<+T> = None | Some(value: T)

  /** Multiplying both sides of `a <= b` by the same natural number. */
  lemma MulLeft(a: nat, b: nat, c: nat)
    requires a <= b
    ensures a * c <= b * c
  {
  }

  /** Euclidean division is determined by a quotient and a remainder below the divisor. */
  lemma {:induction false} DivUnique(n: nat, d: nat, q: nat, r: nat)
    requires d > 0 && r < d && n == d * q + r
    ensures n / d == q && n % d == r
  {
    assert n == d * (n / d) + n % d;
    if n / d < q {
      MulLeft(n / d + 1, q, d);
    } else if n / d > q {
      MulLeft(q + 1, n / d, d);
    }
  }

  /** A cell `(x, y)` of a `width`-wide row-major grid lies at `y * width + x`, below `width * height`. */
  lemma {:induction false} RowMajorBelow(x: nat, y: nat, width: nat, height: nat)
    requires x < width && y < height
    ensures y * width + x < width * height
  {
    MulLeft(y, height - 1, width);
    assert (height - 1) * width == width * height - width;
  }

}
