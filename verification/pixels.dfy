/**
 * The resized image as `get_theme_color` sees it: a `width` x `height` grid of
 * RGBA pixels read with `get_pixel(x, y)`, the order in which its nested loops
 * visit the cells, and the per-channel totals those loops accumulate.
 */
module Pixels {
  import opened Ints

  /** One pixel as `get_pixel` returns it; the alpha channel is never read. */
  datatype Pixel = Rgba(r: Byte, g: Byte, b: Byte, a: Byte)

  datatype Channel = Red | Green | Blue

  function Component(p: Pixel, c: Channel): Byte
  {
    match c
    case Red => p.r
    case Green => p.g
    case Blue => p.b
  }

  /** Pixels stored column by column: `columns[x][y]` is `get_pixel(x, y)`. */
  datatype PixelGrid = PixelGrid(width: U32, height: U32, columns: seq<seq<Pixel>>)
  {
    predicate WellFormed()
    {
      |columns| == width && forall x | 0 <= x < |columns| :: |columns[x]| == height
    }
  }

  /** A decoded image: `dimensions()` agrees with the stored pixels. */
  type Image = g: PixelGrid | g.WellFormed() witness PixelGrid(0, 0, [])

  /** A cell (x, y) of the grid. */
  datatype Cell = Cell(x: nat, y: nat)

  predicate InBounds(img: Image, cells: seq<Cell>)
  {
    forall i | 0 <= i < |cells| :: cells[i].x < img.width && cells[i].y < img.height
  }

  /** The inner loop `for y in 0..h` at column x: Cell(x, 0), ..., Cell(x, h - 1). */
  function Column(x: nat, h: nat): (cells: seq<Cell>)
    ensures |cells| == h
  {
    if h == 0 then [] else Column(x, h - 1) + [Cell(x, h - 1)]
  }

  /** Both loops `for x in 0..w { for y in 0..h }`: the cells in visiting order. */
  function Visits(w: nat, h: nat): (cells: seq<Cell>)
    ensures |cells| == w * h
  {
    if w == 0 then []
    else
      MulNext(w, h);
      Visits(w - 1, h) + Column(w - 1, h)
  }

  /** Every cell of column x below row h lies in a grid at least x + 1 wide and h high. */
  lemma {:induction false} ColumnInBounds(img: Image, x: nat, h: nat)
    requires x < img.width && h <= img.height
    ensures InBounds(img, Column(x, h))
  {
    if h > 0 {
      ColumnInBounds(img, x, h - 1);
    }
  }

  /** The loops never step outside the grid. */
  lemma {:induction false} VisitsInBounds(img: Image, w: nat, h: nat)
    requires w <= img.width && h <= img.height
    ensures InBounds(img, Visits(w, h))
  {
    if w > 0 {
      VisitsInBounds(img, w - 1, h);
      ColumnInBounds(img, w - 1, h);
      assert Visits(w, h) == Visits(w - 1, h) + Column(w - 1, h);
    }
  }

  /** How many times the given cell occurs in cells, counted from the back. */
  function Occurrences(cells: seq<Cell>, cell: Cell): nat
  {
    if cells == [] then 0
    else Occurrences(cells[..|cells| - 1], cell) + if cells[|cells| - 1] == cell then 1 else 0
  }

  /** The occurrence count is the multiplicity in the multiset of the cells. */
  lemma {:induction false} OccurrencesIsMultiplicity(cells: seq<Cell>, cell: Cell)
    ensures Occurrences(cells, cell) == multiset(cells)[cell]
  {
    if cells != [] {
      var front := cells[..|cells| - 1];
      OccurrencesIsMultiplicity(front, cell);
      assert cells == front + [cells[|cells| - 1]];
    }
  }

  lemma {:induction false} OccurrencesAppend(a: seq<Cell>, b: seq<Cell>, cell: Cell)
    ensures Occurrences(a + b, cell) == Occurrences(a, cell) + Occurrences(b, cell)
  {
    if b == [] {
      assert a + b == a;
    } else {
      var b' := b[..|b| - 1];
      OccurrencesAppend(a, b', cell);
      assert (a + b)[..|a + b| - 1] == a + b';
      assert (a + b)[|a + b| - 1] == b[|b| - 1];
    }
  }

  /** Column x visits each of its rows exactly once and no other cell. */
  lemma {:induction false} ColumnOnce(x: nat, h: nat, cell: Cell)
    ensures Occurrences(Column(x, h), cell) == if cell.x == x && cell.y < h then 1 else 0
  {
    if h > 0 {
      ColumnOnce(x, h - 1, cell);
      var column := Column(x, h);
      assert column[..h - 1] == Column(x, h - 1);
    }
  }

  /** The cells the loops have visited on reaching row y of column x. */
  function Prefix(h: nat, x: nat, y: nat): seq<Cell>
  {
    Visits(x, h) + Column(x, y)
  }

  lemma PrefixInBounds(img: Image, x: nat, y: nat)
    requires y <= img.height
    requires x < img.width || (x == img.width && y == 0)
    ensures InBounds(img, Prefix(img.height, x, y))
  {
    VisitsInBounds(img, x, img.height);
    if y > 0 {
      ColumnInBounds(img, x, y);
    } else {
      assert Prefix(img.height, x, y) == Visits(x, img.height);
    }
  }

  /** One step of the inner loop adds the pixel at (x, y). */
  lemma PrefixStep(img: Image, x: nat, y: nat, c: Channel)
    requires x < img.width && y < img.height
    ensures InBounds(img, Prefix(img.height, x, y)) && InBounds(img, Prefix(img.height, x, y + 1))
    ensures Total(img, Prefix(img.height, x, y + 1), c) ==
      Total(img, Prefix(img.height, x, y), c) + Component(img.columns[x][y], c)
  {
    PrefixInBounds(img, x, y);
    PrefixInBounds(img, x, y + 1);
    var before, after := Prefix(img.height, x, y), Prefix(img.height, x, y + 1);
    assert after == before + [Cell(x, y)];
    assert after[..|after| - 1] == before;
  }

  /** Finishing column x is starting column x + 1. */
  lemma PrefixNextColumn(h: nat, x: nat)
    ensures Prefix(h, x, h) == Prefix(h, x + 1, 0)
  {
    assert Visits(x + 1, h) == Visits(x, h) + Column(x, h);
  }

  /**
   * The nested loops visit every cell of a w x h grid exactly once and nothing
   * outside it.
   */
  lemma VisitsOnce(w: nat, h: nat, cell: Cell)
    ensures multiset(Visits(w, h))[cell] == if cell.x < w && cell.y < h then 1 else 0
  {
    VisitsOccurrences(w, h, cell);
    OccurrencesIsMultiplicity(Visits(w, h), cell);
  }

  lemma {:induction false} VisitsOccurrences(w: nat, h: nat, cell: Cell)
    ensures Occurrences(Visits(w, h), cell) == if cell.x < w && cell.y < h then 1 else 0
  {
    if w > 0 {
      VisitsOccurrences(w - 1, h, cell);
      VisitsOccurrencesStep(w, h, cell);
    }
  }

  /** Adding column w - 1 to the first w - 1 columns adds that column's cells. */
  lemma VisitsOccurrencesStep(w: nat, h: nat, cell: Cell)
    requires w > 0
    requires Occurrences(Visits(w - 1, h), cell) == if cell.x < w - 1 && cell.y < h then 1 else 0
    ensures Occurrences(Visits(w, h), cell) == if cell.x < w && cell.y < h then 1 else 0
  {
    var earlier, column := Visits(w - 1, h), Column(w - 1, h);
    ColumnOnce(w - 1, h, cell);
    OccurrencesAppend(earlier, column, cell);
    assert Visits(w, h) == earlier + column;
    OnceStep(Occurrences(earlier + column, cell), Occurrences(earlier, cell), Occurrences(column, cell), w, h, cell);
  }

  lemma OnceStep(total: nat, earlier: nat, column: nat, w: nat, h: nat, cell: Cell)
    requires w > 0 && total == earlier + column
    requires earlier == if cell.x < w - 1 && cell.y < h then 1 else 0
    requires column == if cell.x == w - 1 && cell.y < h then 1 else 0
    ensures total == if cell.x < w && cell.y < h then 1 else 0
  {
  }

  /** The sum of channel c over the given cells, added in order. */
  function Total(img: Image, cells: seq<Cell>, c: Channel): nat
    requires InBounds(img, cells)
  {
    if cells == [] then 0
    else
      var last := cells[|cells| - 1];
      Total(img, cells[..|cells| - 1], c) + Component(img.columns[last.x][last.y], c)
  }

  /** What each accumulator holds once the loops finish, before any wrap-around. */
  function ChannelTotal(img: Image, c: Channel): (total: nat)
    ensures total <= 255 * (img.width * img.height)
  {
    VisitsInBounds(img, img.width, img.height);
    TotalBounds(img, Visits(img.width, img.height), c, 0, 255);
    Total(img, Visits(img.width, img.height), c)
  }

  /** Totals split over concatenation: partial sums of two ranges add up. */
  lemma {:induction false} TotalAppend(img: Image, a: seq<Cell>, b: seq<Cell>, c: Channel)
    requires InBounds(img, a) && InBounds(img, b)
    ensures InBounds(img, a + b)
    ensures Total(img, a + b, c) == Total(img, a, c) + Total(img, b, c)
  {
    if b == [] {
      assert a + b == a;
    } else {
      var b' := b[..|b| - 1];
      TotalAppend(img, a, b', c);
      assert (a + b)[..|a + b| - 1] == a + b';
      assert (a + b)[|a + b| - 1] == b[|b| - 1];
    }
  }

  /** Taking one cell out of a sequence takes its value out of the total. */
  lemma TotalRemoveAt(img: Image, t: seq<Cell>, i: nat, c: Channel)
    requires InBounds(img, t) && i < |t|
    ensures InBounds(img, t[..i] + t[i + 1..])
    ensures Total(img, t, c) == Total(img, t[..i] + t[i + 1..], c) + Component(img.columns[t[i].x][t[i].y], c)
  {
    var front, back := t[..i], t[i + 1..];
    assert t == front + [t[i]] + back;
    assert [t[i]][..0] == [];
    TotalAppend(img, front + [t[i]], back, c);
    TotalAppend(img, front, [t[i]], c);
    TotalAppend(img, front, back, c);
  }

  /**
   * In two sequences with the same elements, the last element of the first
   * occurs somewhere in the second, and removing both leaves the same elements.
   */
  lemma RemoveMatching<T>(s: seq<T>, t: seq<T>) returns (i: nat)
    requires s != [] && multiset(s) == multiset(t)
    ensures i < |t| && t[i] == s[|s| - 1]
    ensures multiset(s[..|s| - 1]) == multiset(t[..i] + t[i + 1..])
  {
    var e, s' := s[|s| - 1], s[..|s| - 1];
    assert s == s' + [e];
    assert e in t by {
      assert e in multiset(s);
    }
    i :| 0 <= i < |t| && t[i] == e;
    var t' := t[..i] + t[i + 1..];
    assert t == t[..i] + [e] + t[i + 1..];
    assert multiset(t) == multiset(t') + multiset{e};
    assert multiset(s) == multiset(s') + multiset{e};
    assert multiset(s') == multiset(s) - multiset{e};
    assert multiset(t') == multiset(t) - multiset{e};
  }

  /**
   * The total does not depend on the visiting order: any enumeration of the
   * same cells, each as often, adds up to the same sum.
   */
  lemma {:induction false} TotalPermutation(img: Image, s: seq<Cell>, t: seq<Cell>, c: Channel)
    requires InBounds(img, s) && InBounds(img, t)
    requires multiset(s) == multiset(t)
    ensures Total(img, s, c) == Total(img, t, c)
    decreases |s|
  {
    if s == [] {
      assert |t| == |multiset(t)| == 0;
    } else {
      var e, s' := s[|s| - 1], s[..|s| - 1];
      var i := RemoveMatching(s, t);
      var t' := t[..i] + t[i + 1..];
      TotalRemoveAt(img, t, i, c);
      assert s == s' + [e];
      assert InBounds(img, s');
      TotalPermutation(img, s', t', c);
    }
  }

  /** Every pixel's channel c lies in [lo, hi]. */
  predicate ChannelWithin(img: Image, c: Channel, lo: nat, hi: nat)
  {
    forall x, y | 0 <= x < img.width && 0 <= y < img.height ::
      lo <= Component(img.columns[x][y], c) <= hi
  }

  /** A total over n cells lies between n times the least and n times the largest value. */
  lemma {:induction false} TotalBounds(img: Image, cells: seq<Cell>, c: Channel, lo: nat, hi: nat)
    requires InBounds(img, cells)
    requires ChannelWithin(img, c, lo, hi)
    ensures lo * |cells| <= Total(img, cells, c) <= hi * |cells|
  {
    if cells != [] {
      var n := |cells| - 1;
      var last := cells[n];
      var v := Component(img.columns[last.x][last.y], c);
      TotalBounds(img, cells[..n], c, lo, hi);
      assert Total(img, cells, c) == Total(img, cells[..n], c) + v;
      MulSucc(lo, n);
      MulSucc(hi, n);
    }
  }

  /**
   * The loops' total is the total of any enumeration that visits every cell of
   * the grid exactly once, in whatever order.
   */
  lemma ChannelTotalAnyOrder(img: Image, t: seq<Cell>, c: Channel)
    requires InBounds(img, t)
    requires forall cell :: multiset(t)[cell] == if cell.x < img.width && cell.y < img.height then 1 else 0
    ensures Total(img, t, c) == ChannelTotal(img, c)
  {
    var visits := Visits(img.width, img.height);
    VisitsInBounds(img, img.width, img.height);
    forall cell
      ensures multiset(t)[cell] == multiset(visits)[cell]
    {
      VisitsOnce(img.width, img.height, cell);
    }
    assert multiset(t) == multiset(visits);
    TotalPermutation(img, t, visits, c);
  }
}
