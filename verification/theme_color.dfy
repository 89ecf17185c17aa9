/**
 * `get_theme_color`: the average colour of the resized image. Two nested loops
 * add every pixel's red, green and blue into `u32` accumulators; each sum is
 * divided by the pixel count, rounded and cast to `u8`, and the three averages
 * are formatted as `#RRGGBB`.
 */
module ThemeColor {
  import opened Wrappers
  import opened Ints
  import opened Pixels
  import opened HexColor

  /** The most pixels whose channel sums cannot overflow a `u32`: floor((2^32 - 1) / 255). */
  const MaxPixels: nat := 16843009

  /**
   * `(sum as f32 / count as f32).round() as u8`, computed exactly: the nearest
   * integer to sum / count with halves rounded up, saturated at 255; a zero
   * count gives NaN (cast to 0) for a zero sum and infinity (cast to 255)
   * otherwise.
   */
  function Average(sum: nat, count: nat): (avg: Byte)
    ensures count == 0 ==> avg == if sum == 0 then 0 else 255
    ensures count > 0 && avg < 255 ==> 2 * avg * count - count <= 2 * sum < 2 * avg * count + count
    ensures count > 0 && avg == 255 ==> 2 * 255 * count - count <= 2 * sum
  {
    if count == 0 then (if sum == 0 then 0 else 255)
    else
      var q := (2 * sum + count) / (2 * count);
      RoundingBounds(sum, count);
      if q > 255 then 255 else q
  }

  /** Rounding half up by integer division lands within half a step of sum / count. */
  lemma RoundingBounds(sum: nat, count: nat)
    requires count > 0
    ensures var q := (2 * sum + count) / (2 * count);
      2 * q * count - count <= 2 * sum < 2 * q * count + count
  {
    var d := 2 * count;
    var q := (2 * sum + count) / d;
    assert q * d + (2 * sum + count) % d == 2 * sum + count;
    assert q * d == 2 * q * count;
  }

  /**
   * An average of values that all lie in [lo, hi] lies in [lo, hi]: the sum of
   * count such values is between lo * count and hi * count.
   */
  lemma AverageWithin(sum: nat, count: nat, lo: nat, hi: nat)
    requires count > 0 && hi <= 255
    requires lo * count <= sum <= hi * count
    ensures lo <= Average(sum, count) <= hi
  {
    var a: nat := Average(sum, count);
    DoubleMul(lo, count);
    DoubleMul(hi, count);
    MulNext(2 * a, count);
    if a < 255 {
      AverageAtLeast(sum, count, lo, a);
    } else {
      MulMono(hi, 255, count);
    }
    AverageAtMost(sum, count, hi, a);
  }

  /** Twice the sum exceeds (2 lo) count, so an average rounding below it is impossible. */
  lemma AverageAtLeast(sum: nat, count: nat, lo: nat, a: nat)
    requires count > 0
    requires (2 * lo) * count <= 2 * sum < (2 * a + 1) * count
    ensures lo <= a
  {
    MulLtCancel(2 * lo, 2 * a + 1, count);
  }

  /** Twice the sum is below (2 hi) count, so an average rounding above it is impossible. */
  lemma AverageAtMost(sum: nat, count: nat, hi: nat, a: nat)
    requires count > 0
    requires (2 * a - 1) * count <= 2 * sum <= (2 * hi) * count
    ensures a <= hi
  {
    MulLeCancel(2 * a - 1, 2 * hi, count);
  }


  /**
   * `width * height` in `u32` arithmetic: without overflow it is the number of
   * steps the loops take, and an empty grid has count 0.
   */
  function PixelCount(img: Image): (n: U32)
    ensures img.width * img.height < Modulus ==> n == |Visits(img.width, img.height)|
    ensures img.width * img.height == 0 ==> n == 0
  {
    Wrap(img.width * img.height)
  }

  /**
   * What one accumulator's average comes to, wrap-around included. Up to
   * MaxPixels pixels nothing wraps, and it is the rounded exact mean; an empty
   * image averages to 0.
   */
  function ChannelAverage(img: Image, c: Channel): (avg: Byte)
    ensures img.width * img.height <= MaxPixels ==>
      avg == Average(ChannelTotal(img, c), img.width * img.height)
    ensures img.width * img.height == 0 ==> avg == 0
  {
    var avg := Average(Wrap(ChannelTotal(img, c)), PixelCount(img));
    if img.width * img.height <= MaxPixels then NoOverflow(img, c); avg else avg
  }

  /** The colour `get_theme_color` returns for an image. */
  function ThemeColorOf(img: Image): (color: string)
    ensures IsColorString(color)
  {
    FormatHex(Rgb(ChannelAverage(img, Red), ChannelAverage(img, Green), ChannelAverage(img, Blue)))
  }

  /**
   * Parsing the returned colour gives back the three channel averages, in
   * R, G, B order.
   */
  lemma ThemeColorChannels(img: Image)
    ensures ParseColor(ThemeColorOf(img)) ==
      Some(Rgb(ChannelAverage(img, Red), ChannelAverage(img, Green), ChannelAverage(img, Blue)))
  {
    ParseFormat(Rgb(ChannelAverage(img, Red), ChannelAverage(img, Green), ChannelAverage(img, Blue)));
  }

  /**
   * With at most MaxPixels pixels neither the pixel count nor any channel
   * accumulator wraps around.
   */
  lemma NoOverflow(img: Image, c: Channel)
    requires img.width * img.height <= MaxPixels
    ensures img.width * img.height < Modulus
    ensures ChannelTotal(img, c) <= 255 * (img.width * img.height) < Modulus
    ensures Wrap(ChannelTotal(img, c)) == ChannelTotal(img, c)
  {
    MulMono(img.width * img.height, MaxPixels, 255);
  }

  /**
   * For a non-empty image without overflow, each channel's average lies between
   * the least and the largest value of that channel.
   */
  lemma AverageBetween(img: Image, c: Channel, lo: nat, hi: nat)
    requires 0 < img.width * img.height <= MaxPixels
    requires hi <= 255 && ChannelWithin(img, c, lo, hi)
    ensures lo <= ChannelAverage(img, c) <= hi
  {
    var n := img.width * img.height;
    VisitsInBounds(img, img.width, img.height);
    TotalBounds(img, Visits(img.width, img.height), c, lo, hi);
    AverageWithin(ChannelTotal(img, c), n, lo, hi);
  }

  /** Every pixel of the image has the colour channels of p. */
  predicate Uniform(img: Image, p: Pixel)
  {
    forall x, y | 0 <= x < img.width && 0 <= y < img.height ::
      img.columns[x][y].r == p.r && img.columns[x][y].g == p.g && img.columns[x][y].b == p.b
  }

  /** A uniform image averages to exactly its own colour, whatever its alpha. */
  lemma UniformColor(img: Image, p: Pixel)
    requires 0 < img.width * img.height <= MaxPixels
    requires Uniform(img, p)
    ensures ThemeColorOf(img) == FormatHex(Rgb(p.r, p.g, p.b))
  {
    UniformAverage(img, p, Red);
    UniformAverage(img, p, Green);
    UniformAverage(img, p, Blue);
  }

  lemma UniformAverage(img: Image, p: Pixel, c: Channel)
    requires 0 < img.width * img.height <= MaxPixels
    requires Uniform(img, p)
    ensures ChannelAverage(img, c) == Component(p, c)
  {
    var v := Component(p, c);
    assert ChannelWithin(img, c, v, v);
    AverageBetween(img, c, v, v);
  }

  /**
   * Past MaxPixels the accumulator wraps: a 50 x 336861 image whose red is 255
   * everywhere sums to 255 * 16843050, which wraps to 10454, and averages to 0.
   */
  lemma UniformColorWraps(img: Image, p: Pixel)
    requires img.width == 50 && img.height == 336861
    requires Uniform(img, p) && p.r == 255
    ensures ChannelAverage(img, Red) == 0
  {
    var n := img.width * img.height;
    assert n == 16843050;
    VisitsInBounds(img, img.width, img.height);
    assert ChannelWithin(img, Red, 255, 255);
    TotalBounds(img, Visits(img.width, img.height), Red, 255, 255);
    assert ChannelTotal(img, Red) == 255 * n;
    assert Wrap(255 * n) == 10454;
    assert PixelCount(img) == n;
  }

  /** A 2 x 2 image of (10, 20, 30) gives `#0A141E`. */
  lemma TwoByTwoExample()
    ensures var p := Rgba(10, 20, 30, 255);
      ThemeColorOf(PixelGrid(2, 2, [[p, p], [p, p]])) == "#0A141E"
  {
    var p := Rgba(10, 20, 30, 255);
    var img: Image := PixelGrid(2, 2, [[p, p], [p, p]]);
    UniformColor(img, p);
    FormatExample();
  }

  /** An image without pixels divides 0 by 0: NaN, cast to 0 in every channel. */
  lemma EmptyImageIsBlack(img: Image)
    requires img.width * img.height == 0
    ensures ThemeColorOf(img) == "#000000"
  {
  }

  /**
   * The exact running total of channel c when the loops reach row y of
   * column x, counted step by step as the loops count.
   */
  function RunningTotal(img: Image, x: nat, y: nat, c: Channel): (total: nat)
    requires y <= img.height
    requires x < img.width || (x == img.width && y == 0)
    ensures total <= 255 * (x * img.height + y)
    decreases x, y
  {
    if y > 0 then RunningTotal(img, x, y - 1, c) + Component(img.columns[x][y - 1], c)
    else if x > 0 then MulNext(x, img.height); RunningTotal(img, x - 1, img.height, c)
    else 0
  }

  /** The running total is the total over the cells visited so far, in visiting order. */
  lemma {:induction false} RunningTotalIsPrefixTotal(img: Image, x: nat, y: nat, c: Channel)
    requires y <= img.height
    requires x < img.width || (x == img.width && y == 0)
    ensures InBounds(img, Prefix(img.height, x, y))
    ensures RunningTotal(img, x, y, c) == Total(img, Prefix(img.height, x, y), c)
    decreases x, y
  {
    PrefixInBounds(img, x, y);
    if y > 0 {
      RunningTotalIsPrefixTotal(img, x, y - 1, c);
      RowStep(img, x, y - 1, c);
    } else if x > 0 {
      RunningTotalIsPrefixTotal(img, x - 1, img.height, c);
      ColumnStep(img, x - 1, c);
    } else {
      assert Prefix(img.height, x, y) == [];
    }
  }

  /** One pass of the inner loop body keeps the running total equal to the prefix total. */
  lemma RowStep(img: Image, x: nat, y: nat, c: Channel)
    requires x < img.width && y < img.height
    requires InBounds(img, Prefix(img.height, x, y))
    requires RunningTotal(img, x, y, c) == Total(img, Prefix(img.height, x, y), c)
    ensures InBounds(img, Prefix(img.height, x, y + 1))
    ensures RunningTotal(img, x, y + 1, c) == Total(img, Prefix(img.height, x, y + 1), c)
  {
    PrefixStep(img, x, y, c);
  }

  /** Moving to the next column keeps the running total equal to the prefix total. */
  lemma ColumnStep(img: Image, x: nat, c: Channel)
    requires x < img.width
    requires InBounds(img, Prefix(img.height, x, img.height))
    requires RunningTotal(img, x, img.height, c) == Total(img, Prefix(img.height, x, img.height), c)
    ensures InBounds(img, Prefix(img.height, x + 1, 0))
    ensures RunningTotal(img, x + 1, 0, c) == Total(img, Prefix(img.height, x + 1, 0), c)
  {
    PrefixNextColumn(img.height, x);
  }

  /** Once the outer loop ends, the running total is the channel's total over the grid. */
  lemma RunningTotalComplete(img: Image, c: Channel)
    ensures RunningTotal(img, img.width, 0, c) == ChannelTotal(img, c)
  {
    RunningTotalIsPrefixTotal(img, img.width, 0, c);
    assert Prefix(img.height, img.width, 0) == Visits(img.width, img.height);
  }

  /** One `sum += pixel[i] as u32` keeps the accumulator at the wrapped running total. */
  lemma AddPixel(img: Image, x: nat, y: nat, c: Channel, sum: U32)
    requires x < img.width && y < img.height
    requires sum == Wrap(RunningTotal(img, x, y, c))
    ensures Wrap(sum + Component(img.columns[x][y], c)) == Wrap(RunningTotal(img, x, y + 1, c))
  {
    WrapAdd(RunningTotal(img, x, y, c), Component(img.columns[x][y], c));
  }

  /** `get_theme_color`, with its nested loops over x then y. */
  method GetThemeColor(img: Image) returns (color: string)
    ensures color == ThemeColorOf(img)
  {
    var width, height := img.width, img.height;
    var sumRed: U32, sumGreen: U32, sumBlue: U32 := 0, 0, 0;
    var x: U32 := 0;
    while x < width
      invariant x <= width
      invariant sumRed == Wrap(RunningTotal(img, x, 0, Red))
      invariant sumGreen == Wrap(RunningTotal(img, x, 0, Green))
      invariant sumBlue == Wrap(RunningTotal(img, x, 0, Blue))
    {
      var y: U32 := 0;
      while y < height
        invariant y <= height
        invariant sumRed == Wrap(RunningTotal(img, x, y, Red))
        invariant sumGreen == Wrap(RunningTotal(img, x, y, Green))
        invariant sumBlue == Wrap(RunningTotal(img, x, y, Blue))
      {
        var pixel := img.columns[x][y];
        AddPixel(img, x, y, Red, sumRed);
        AddPixel(img, x, y, Green, sumGreen);
        AddPixel(img, x, y, Blue, sumBlue);
        sumRed := Wrap(sumRed + pixel.r);
        sumGreen := Wrap(sumGreen + pixel.g);
        sumBlue := Wrap(sumBlue + pixel.b);
        y := y + 1;
      }
      x := x + 1;
    }
    RunningTotalComplete(img, Red);
    RunningTotalComplete(img, Green);
    RunningTotalComplete(img, Blue);
    var pixelCount := PixelCount(img);
    var avgRed := Average(sumRed, pixelCount);
    var avgGreen := Average(sumGreen, pixelCount);
    var avgBlue := Average(sumBlue, pixelCount);
    color := FormatHex(Rgb(avgRed, avgGreen, avgBlue));
  }
}
