/**
 * The box requested from `DynamicImage::resize`: 50 wide and
 * `(height * 50) / width` high, in `u32` arithmetic.
 */
module Resize {
  import opened Wrappers
  import opened Ints

  const TargetWidth: U32 := 50

  /**
   * The requested (width, height) for a decoded image of the given size;
   * `None` where the `u32` division by a zero width panics.
   */
  function ResizeBox(width: U32, height: U32): (box: Option<(U32, U32)>)
    ensures box.None? <==> width == 0
    ensures box.Some? ==> box.value.0 == TargetWidth
  {
    if width == 0 then None
    else
      var n := Wrap(height * TargetWidth);
      DivBound(n, width);
      Some((TargetWidth, n / width))
  }

  /**
   * Without overflow the requested height is floor(height * 50 / width): the
   * largest h with h * width <= height * 50.
   */
  lemma ResizeHeightIsFloor(width: U32, height: U32)
    requires width > 0 && height * TargetWidth < Modulus
    ensures var h := ResizeBox(width, height).value.1;
      h * width <= height * TargetWidth < (h + 1) * width
  {
    var n := height * TargetWidth;
    var h := n / width;
    assert ResizeBox(width, height).value.1 == h;
    assert h * width + n % width == n;
  }

  /** The requested height is zero exactly when height * 50 < width. */
  lemma ResizeHeightZero(width: U32, height: U32)
    requires width > 0 && height * TargetWidth < Modulus
    ensures ResizeBox(width, height).value.1 == 0 <==> height * TargetWidth < width
  {
    ResizeHeightIsFloor(width, height);
    var h := ResizeBox(width, height).value.1;
    var n := height * TargetWidth;
    if n < width {
      assert h * width < 1 * width;
      MulLtCancel(h, 1, width);
    } else {
      assert 1 * width <= n < (h + 1) * width;
      MulLtCancel(1, h + 1, width);
    }
  }

  /** A square image asks for a 50 x 50 box. */
  lemma ResizeSquare(side: U32)
    requires 0 < side && side * TargetWidth < Modulus
    ensures ResizeBox(side, side) == Some((TargetWidth, TargetWidth))
  {
    ResizeHeightIsFloor(side, side);
    var h := ResizeBox(side, side).value.1;
    MulLeCancel(h, TargetWidth, side);
    assert TargetWidth * side < (h + 1) * side;
    MulLtCancel(TargetWidth, h + 1, side);
  }

  /** Past 85899345 rows the product height * 50 wraps, and the box collapses. */
  lemma ResizeHeightWraps()
    ensures ResizeBox(1, 85899346) == Some((TargetWidth, 4))
  {
  }

  /** With overflow a square image need not ask for a 50 x 50 box. */
  lemma ResizeSquareWraps()
    ensures ResizeBox(100000000, 100000000) == Some((TargetWidth, 7))
  {
  }
}
