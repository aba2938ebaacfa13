/** The pixel cache of a raster chart: panning it in place instead of drawing it again. */
module Pan {
  import opened Geometry

  datatype ScaleType = HiDef | LoDef

  type Pixel = int

  /** Two cache pixels, for two source rectangles of one size and whole scale, show the same source position. */
  predicate SamePlace(w: int, a: Rectangle, x: int, y: int, b: Rectangle, u: int, v: int) {
    && w > 0 && a.width == b.width && a.height == b.height && a.width % w == 0 && a.width / w > 1
    && a.x + x * (a.width / w) == b.x + u * (a.width / w)
    && a.y + y * (a.width / w) == b.y + v * (a.width / w)
  }

  /** What a full redraw puts at column x, row y of the cache for a source rectangle. */
  type Renderer = (ScaleType, Rectangle, int, int) -> Pixel

  /** At a whole scale above 1 what is drawn depends on the absolute source position only. */
  ghost predicate Positional(render: Renderer, w: int) {
    forall m, a, x, y, b, u, v {:trigger render(m, a, x, y), SamePlace(w, a, x, y, b, u, v)} ::
      SamePlace(w, a, x, y, b, u, v) ==> render(m, a, x, y) == render(m, b, u, v)
  }

  /** memmove of n pixels from one place of the buffer to another. */
  method MoveRow(pix: array2<Pixel>, pdRow: nat, pdCol: nat, psRow: nat, psCol: nat, n: nat)
    requires pdRow < pix.Length0 && psRow < pix.Length0 && pdCol + n <= pix.Length1 && psCol + n <= pix.Length1
    modifies pix
    ensures forall y, x :: 0 <= y < pix.Length0 && 0 <= x < pix.Length1 ==>
              pix[y, x] == if y == pdRow && pdCol <= x < pdCol + n then old(pix[psRow, x - pdCol + psCol])
                           else old(pix[y, x])
  {
    if pdCol <= psCol {
      var k := 0;
      while k < n
        invariant 0 <= k <= n
        invariant forall y, x :: 0 <= y < pix.Length0 && 0 <= x < pix.Length1 ==>
              pix[y, x] == if y == pdRow && pdCol <= x < pdCol + k then old(pix[psRow, x - pdCol + psCol])
                           else old(pix[y, x])
      {
        pix[pdRow, pdCol + k] := pix[psRow, psCol + k];
        k := k + 1;
      }
    } else {
      var k := n;
      while k > 0
        invariant 0 <= k <= n
        invariant forall y, x :: 0 <= y < pix.Length0 && 0 <= x < pix.Length1 ==>
              pix[y, x] == if y == pdRow && pdCol + k <= x < pdCol + n then old(pix[psRow, x - pdCol + psCol])
                           else old(pix[y, x])
      {
        k := k - 1;
        pix[pdRow, pdCol + k] := pix[psRow, psCol + k];
      }
    }
  }

  /** Where the pixel at (x, y) of the panned cache was before, if it was in the cache at all. */
  predicate Stays(pix: array2<Pixel>, rows: int, pixels: int, y: int, x: int) {
    0 <= y + rows < pix.Length0 && 0 <= x + pixels < pix.Length1
  }

  /**
   * Move the pixels that stay visible: rows from the top down when panning down, from the bottom up
   * otherwise, so that no row is overwritten before it was moved.
   */
  method MoveRows(pix: array2<Pixel>, scaledStrideRows: int, scaledStridePixels: int)
    requires Abs(scaledStrideRows) <= pix.Length0 && Abs(scaledStridePixels) <= pix.Length1
    modifies pix
    ensures forall y, x :: 0 <= y < pix.Length0 && 0 <= x < pix.Length1 ==>
              pix[y, x] == if Stays(pix, scaledStrideRows, scaledStridePixels, y, x)
                           then old(pix[y + scaledStrideRows, x + scaledStridePixels]) else old(pix[y, x])
  {
    var height, width := pix.Length0, pix.Length1;
    var psCol := if scaledStridePixels > 0 then scaledStridePixels else 0;
    var pdCol := if scaledStridePixels <= 0 then Abs(scaledStridePixels) else 0;
    var n := width - Abs(scaledStridePixels);
    if scaledStrideRows > 0 {
      var psRow, pdRow := Abs(scaledStrideRows), 0;
      for iy := 0 to height - Abs(scaledStrideRows)
        invariant psRow == iy + scaledStrideRows && pdRow == iy
        invariant forall y, x :: 0 <= y < height && 0 <= x < width ==>
              pix[y, x] == if y < iy && Stays(pix, scaledStrideRows, scaledStridePixels, y, x)
                           then old(pix[y + scaledStrideRows, x + scaledStridePixels]) else old(pix[y, x])
      {
        MoveRow(pix, pdRow, pdCol, psRow, psCol, n);
        psRow, pdRow := psRow + 1, pdRow + 1;
      }
    } else {
      var psRow, pdRow := height - Abs(scaledStrideRows) - 1, height - 1;
      for iy := 0 to height - Abs(scaledStrideRows)
        invariant psRow == height - 1 - iy + scaledStrideRows && pdRow == height - 1 - iy
        invariant forall y, x :: 0 <= y < height && 0 <= x < width ==>
              pix[y, x] == if y >= height - iy && Stays(pix, scaledStrideRows, scaledStridePixels, y, x)
                           then old(pix[y + scaledStrideRows, x + scaledStridePixels]) else old(pix[y, x])
      {
        MoveRow(pix, pdRow, pdCol, psRow, psCol, n);
        psRow, pdRow := psRow - 1, pdRow - 1;
      }
    }
  }

  function Round(r: real): int { (r + 0.5).Floor }

  /** The C cast of a double to int. */
  function Truncate(r: real): int { if r >= 0.0 then r.Floor else -((-r).Floor) }

  function Distance(a: real, b: real): real { if a < b then b - a else a - b }

  lemma Quotient(n: int, d: int, q: int)
    requires d > 0 && n == q * d
    ensures n as real / d as real == q as real && Truncate(n as real / d as real) == q
  {
    assert n as real == q as real * d as real;
    assert (-(q as real)).Floor == -q;
  }

  lemma Multiple(n: int, w: int)
    requires w > 0
    ensures n * w % w == 0
  {
    var q, r := n * w / w, n * w % w;
    assert (n - q) * w == r;
    if n > q { AtLeast(n - q, w); } else if n < q { AtLeast(q - n, w); }
  }

  lemma AtLeast(k: int, w: int)
    requires k >= 1 && w > 0
    ensures k * w >= w
  {
    assert (k - 1) * w >= 0;
  }

  lemma SignOf(u: real, v: real)
    requires v > 0.0
    ensures (u * v > 0.0 <==> u > 0.0) && (u * v < 0.0 <==> u < 0.0)
  {
  }

  lemma FarOff(offset: real, w: real, miss: real)
    requires 0.0 < w < 10000.0 && miss == offset * w && (miss >= 1.0 || miss <= -1.0)
    ensures offset > 0.0001 || offset < -0.0001
  {
    SignOf(offset - 0.0001, w);
    SignOf(offset + 0.0001, w);
    assert (offset - 0.0001) * w == miss - 0.0001 * w && (offset + 0.0001) * w == miss + 0.0001 * w;
  }

  lemma Offset(width: int, w: int, n: int, scale: real)
    requires w > 0 && scale == width as real / w as real
    ensures (width - n * w) as real == (scale - n as real) * w as real
  {
    assert scale * w as real == width as real;
    assert (n * w) as real == n as real * w as real;
  }

  /** The two tests that a scale is whole: near enough to an integer, and that integer is the quotient. */
  predicate Accepts(width: int, w: int)
    requires w > 0
  {
    var scale := width as real / w as real;
    Distance(scale, Round(scale) as real) <= 0.0001 && width / w == Round(scale)
  }

  /** A scale that is not whole is farther than the tolerance from every integer. */
  lemma FarFromWhole(width: int, w: int, n: int)
    requires 0 < w < 10000 && width % w != 0
    ensures Distance(width as real / w as real, n as real) > 0.0001
  {
    var scale := width as real / w as real;
    var miss := width - n * w;
    if miss == 0 { Multiple(n, w); }
    Offset(width, w, n, scale);
    FarOff(scale - n as real, w as real, miss as real);
  }

  lemma AcceptsWhole(width: int, w: int)
    requires w > 0 && width % w == 0
    ensures Accepts(width, w)
  {
    WholeScale(width, w);
  }

  lemma AcceptsOneMore(w: int)
    requires w >= 10000
    ensures Accepts(w + 1, w) && (w + 1) % w == 1
  {
    assert (w + 1) / w == 1 && (w + 1) % w == 1;
    var part := 1.0 / w as real;
    assert part * w as real == 1.0;
    SignOf(part, w as real);
    SignOf(part - 0.0001, w as real);
    assert (part - 0.0001) * w as real == 1.0 - 0.0001 * w as real;
    assert (w + 1) as real / w as real == 1.0 + part;
  }

  /** The tests let exactly the whole scales pass just when the view is less than 10000 columns wide. */
  lemma ScaleTolerance(w: int)
    requires w > 0
    ensures (forall width {:trigger Accepts(width, w)} :: Accepts(width, w) <==> width % w == 0) <==> w < 10000
  {
    if w < 10000 {
      forall width ensures Accepts(width, w) <==> width % w == 0 {
        if width % w == 0 {
          AcceptsWhole(width, w);
        } else {
          FarFromWhole(width, w, Round(width as real / w as real));
        }
      }
    } else {
      AcceptsOneMore(w);
    }
  }

  lemma WholeScale(width: int, w: int)
    requires w > 0 && width % w == 0
    ensures width as real / w as real == (width / w) as real && Round((width / w) as real) == width / w
  {
    Quotient(width, w, width / w);
  }

  /** The distance between two source rectangles in pixels of the cache. */
  function Strides(stride: int, cs: int): int
    requires cs > 0
  {
    if stride < 0 then -(-stride / cs) else stride / cs
  }

  /** A stride that is a multiple of the scale, scaled. */
  lemma ScaledStride(stride: int, cs: int)
    requires cs > 0 && Abs(stride) % cs == 0
    ensures Truncate(stride as real / cs as real) == Strides(stride, cs) && stride == Strides(stride, cs) * cs
  {
    var k := Abs(stride) / cs;
    assert Abs(stride) == k * cs;
    if stride < 0 {
      assert stride == -k * cs;
      Quotient(stride, cs, -k);
    } else {
      Quotient(stride, cs, k);
    }
  }

  lemma IntSign(u: int, v: int)
    requires v > 0
    ensures u * v >= 0 <==> u >= 0
  {
  }

  lemma LessThanScreen(k: int, cs: int, n: int)
    requires cs > 0 && Abs(k * cs) < cs * n
    ensures Abs(k) < n
  {
    IntSign(k - n, cs);
    IntSign(-k - n, cs);
    assert (k - n) * cs == k * cs - cs * n && (-k - n) * cs == -(k * cs) - cs * n;
  }

  /** A stride that is aligned and shorter than a screen of n pixels. */
  lemma ScreenStride(stride: int, cs: int, n: int)
    requires cs > 0 && Abs(stride) % cs == 0 && Abs(stride) < cs * n
    ensures Truncate(stride as real / cs as real) == Strides(stride, cs) && stride == Strides(stride, cs) * cs
    ensures Abs(Strides(stride, cs)) < n
  {
    ScaledStride(stride, cs);
    LessThanScreen(Strides(stride, cs), cs, n);
  }

  /** Divisibility and quotients do not depend on the sign being set aside first. */
  lemma AlignedStride(stride: int, cs: int)
    requires cs > 0
    ensures Abs(stride) % cs == 0 <==> stride % cs == 0
    ensures stride % cs == 0 ==> Strides(stride, cs) == stride / cs && (Strides(stride, cs) == 0 <==> stride == 0)
  {
    if stride % cs == 0 {
      var k := stride / cs;
      assert stride == k * cs;
      Multiple(-k, cs);
      assert -stride == -k * cs;
      ScaledStride(stride, cs);
      NoStride(stride, Strides(stride, cs), cs);
      SameFactor(k, Strides(stride, cs), cs);
    } else if Abs(stride) % cs == 0 {
      var k := Abs(stride) / cs;
      assert Abs(stride) == k * cs && stride == -k * cs;
      Multiple(-k, cs);
    }
  }

  lemma SameFactor(j: int, k: int, cs: int)
    requires cs > 0 && j * cs == k * cs
    ensures j == k
  {
    assert (j - k) * cs == 0;
    if j > k { AtLeast(j - k, cs); } else if k > j { AtLeast(k - j, cs); }
  }

  lemma WholeQuotient(n: int, w: int)
    requires w > 0 && n % w == 0
    ensures n / w > 1 <==> n >= 2 * w
  {
    var k := n / w;
    assert n == k * w;
    IntSign(k - 2, w);
    assert (k - 2) * w == n - 2 * w;
  }

  lemma NoStride(stride: int, k: int, cs: int)
    requires cs > 0 && stride == k * cs
    ensures stride == 0 <==> k == 0
  {
    IntSign(k - 1, cs);
    IntSign(-k - 1, cs);
    assert (k - 1) * cs == k * cs - cs && (-k - 1) * cs == -(k * cs) - cs;
  }

  /** A pixel that was moved by the scaled strides shows what the new source rectangle has there. */
  lemma MovedPixel(render: Renderer, w: int, m: ScaleType, cache: Rectangle, source: Rectangle, rows: int,
                   pixels: int, x: int, y: int)
    requires Positional(render, w) && w > 0 && cache.width == source.width && cache.height == source.height
    requires source.width % w == 0 && source.width / w > 1
    requires source.x - cache.x == pixels * (source.width / w) && source.y - cache.y == rows * (source.width / w)
    ensures render(m, cache, x + pixels, y + rows) == render(m, source, x, y)
  {
    var cs := source.width / w;
    assert (x + pixels) * cs == x * cs + pixels * cs && (y + rows) * cs == y * cs + rows * cs;
    assert SamePlace(w, cache, x + pixels, y + rows, source, x, y);
  }

  class Chart {
    const render: Renderer
    const bilinearLimit: real
    const pix: array2<Pixel>
    var cacheRect: Rectangle
    var cacheRectScaled: Rectangle
    var cacheScaleMethod: ScaleType
    var cachedImageOk: bool

    constructor (render: Renderer, bilinearLimit: real, height: nat, width: nat)
      ensures this.render == render && this.bilinearLimit == bilinearLimit && fresh(pix)
      ensures pix.Length0 == height && pix.Length1 == width && !cachedImageOk
    {
      this.render, this.bilinearLimit := render, bilinearLimit;
      pix := new Pixel[height, width];
      cacheRect, cacheRectScaled := Rectangle(0, 0, 0, 0), Rectangle(0, 0, 0, 0);
      cacheScaleMethod, cachedImageOk := LoDef, false;
    }

    /** Every pixel is what a full redraw for the rectangle would put there. */
    ghost predicate Shows(m: ScaleType, source: Rectangle)
      reads pix
    {
      forall y, x :: 0 <= y < pix.Length0 && 0 <= x < pix.Length1 ==> pix[y, x] == render(m, source, x, y)
    }

    /** GetAndScaleData: draw a rectangle of the cache; the high-definition sampler draws its whole rows. */
    method GetAndScaleData(source: Rectangle, dest: Rectangle, m: ScaleType)
      requires 0 <= dest.x && 0 <= dest.width && dest.x + dest.width <= pix.Length1
      requires 0 <= dest.y && 0 <= dest.height && dest.y + dest.height <= pix.Length0
      modifies pix
      ensures forall y, x :: 0 <= y < pix.Length0 && 0 <= x < pix.Length1 ==>
                pix[y, x] == if dest.y <= y < dest.y + dest.height && (m.HiDef? || dest.x <= x < dest.x + dest.width)
                             then render(m, source, x, y) else old(pix[y, x])
    {
      var from := if m.HiDef? then 0 else dest.x;
      var to := if m.HiDef? then pix.Length1 else dest.x + dest.width;
      for y := dest.y to dest.y + dest.height
        invariant forall v, u :: 0 <= v < pix.Length0 && 0 <= u < pix.Length1 ==>
                pix[v, u] == if dest.y <= v < y && from <= u < to then render(m, source, u, v) else old(pix[v, u])
      {
        for x := from to to
          invariant forall v, u :: 0 <= v < pix.Length0 && 0 <= u < pix.Length1 ==>
                  pix[v, u] == if (dest.y <= v < y && from <= u < to) || (v == y && from <= u < x)
                               then render(m, source, u, v) else old(pix[v, u])
        {
          pix[y, x] := render(m, source, x, y);
        }
      }
    }

    /** GetView: the full redraw. */
    method GetView(source: Rectangle, dest: Rectangle, m: ScaleType)
      requires dest == Rectangle(0, 0, pix.Length1, pix.Length0)
      modifies this, pix
      ensures Shows(m, source) && cacheRect == source && cacheRectScaled == dest
      ensures cacheScaleMethod == m && cachedImageOk
    {
      GetAndScaleData(source, dest, m);
      cacheRect, cacheRectScaled, cacheScaleMethod := source, dest, m;
      cachedImageOk := true;
    }

    /** The cache is for a rectangle of the size asked for; the caller drops it when the scale or the view changes. */
    predicate SameSize(source: Rectangle)
      reads this
    {
      cacheRect.width == source.width && cacheRect.height == source.height
    }

    /** The cache for one source rectangle is panned to another one. */
    predicate Pans(cache: Rectangle, source: Rectangle)
      requires pix.Length1 > 0
    {
      && source.width % pix.Length1 == 0 && source.width / pix.Length1 > 1
      && Abs(source.x - cache.x) % (source.width / pix.Length1) == 0
      && Abs(source.y - cache.y) % (source.width / pix.Length1) == 0
      && Abs(source.x + source.width - (cache.x + cache.width)) < source.width
      && Abs(source.y + source.height - (cache.y + cache.height)) < source.height
    }

    /** Pixels that a pan moves and does not draw again: the high-definition sampler draws whole rows. */
    predicate Moved(m: ScaleType, scaledStrideRows: int, scaledStridePixels: int, y: int, x: int) {
      Stays(pix, scaledStrideRows, scaledStridePixels, y, x) && (scaledStridePixels == 0 || m.LoDef?)
    }

    /** Pixels of the cache that are used again for the new source rectangle. */
    predicate Reused(ok: bool, cache: Rectangle, source: Rectangle, m: ScaleType, y: int, x: int)
      requires pix.Length1 > 0
    {
      ok && (cache == source || (Pans(cache, source) &&
        var cs := source.width / pix.Length1;
        Moved(m, Strides(source.y - cache.y, cs), Strides(source.x - cache.x, cs), y, x)))
    }

    /** A whole scale above 1 is the same in both directions. */
    predicate Proportional(source: Rectangle)
      requires pix.Length1 > 0
    {
      source.width % pix.Length1 == 0 && source.width / pix.Length1 > 1 ==>
        source.height == source.width / pix.Length1 * pix.Length0
    }

    /** The pixels that stay are moved to where the new source rectangle has them. */
    method ShiftPixels(source: Rectangle, m: ScaleType, scaledStrideRows: int, scaledStridePixels: int)
      requires Positional(render, pix.Length1) && Shows(m, cacheRect)
      requires pix.Length1 > 0 && source.width % pix.Length1 == 0 && source.width / pix.Length1 > 1
      requires cacheRect.width == source.width && cacheRect.height == source.height
      requires source.x - cacheRect.x == scaledStridePixels * (source.width / pix.Length1)
      requires source.y - cacheRect.y == scaledStrideRows * (source.width / pix.Length1)
      requires Abs(scaledStrideRows) < pix.Length0 && Abs(scaledStridePixels) < pix.Length1
      modifies pix
      ensures forall y, x :: 0 <= y < pix.Length0 && 0 <= x < pix.Length1 &&
                             Stays(pix, scaledStrideRows, scaledStridePixels, y, x)
                             ==> pix[y, x] == render(m, source, x, y)
    {
      MoveRows(pix, scaledStrideRows, scaledStridePixels);
      forall y, x | 0 <= y < pix.Length0 && 0 <= x < pix.Length1 &&
                    Stays(pix, scaledStrideRows, scaledStridePixels, y, x)
        ensures pix[y, x] == render(m, source, x, y)
      {
        MovedPixel(render, pix.Length1, m, cacheRect, source, scaledStrideRows, scaledStridePixels, x, y);
      }
    }

    /** The rows that came into view are drawn. */
    method FillRows(source: Rectangle, dest: Rectangle, m: ScaleType, scaledStrideRows: int)
      requires dest == Rectangle(0, 0, pix.Length1, pix.Length0) && Abs(scaledStrideRows) < pix.Length0
      modifies pix
      ensures forall y, x :: 0 <= y < pix.Length0 && 0 <= x < pix.Length1 ==>
                pix[y, x] == if 0 <= y + scaledStrideRows < pix.Length0 then old(pix[y, x]) else render(m, source, x, y)
    {
      var subDest := dest.(height := Abs(scaledStrideRows));
      if scaledStrideRows > 0 {
        subDest := subDest.(y := pix.Length0 - scaledStrideRows);
      } else {
        subDest := subDest.(y := 0);
      }
      GetAndScaleData(source, subDest, m);
    }

    /** The same for the columns; the high-definition sampler draws the whole cache here. */
    method FillColumns(source: Rectangle, dest: Rectangle, m: ScaleType, scaledStridePixels: int)
      requires dest == Rectangle(0, 0, pix.Length1, pix.Length0) && Abs(scaledStridePixels) < pix.Length1
      modifies pix
      ensures forall y, x :: 0 <= y < pix.Length0 && 0 <= x < pix.Length1 ==>
                pix[y, x] == if m.LoDef? && 0 <= x + scaledStridePixels < pix.Length1 then old(pix[y, x])
                             else render(m, source, x, y)
    {
      var subDest := dest.(width := Abs(scaledStridePixels));
      if scaledStridePixels > 0 {
        subDest := subDest.(x := pix.Length1 - scaledStridePixels);
      } else {
        subDest := subDest.(x := 0);
      }
      GetAndScaleData(source, subDest, m);
    }

    /** Which pixels are used again, in coordinates: none are when the cache is not valid or cannot be panned. */
    lemma ReusedPixel(ok: bool, cache: Rectangle, source: Rectangle, m: ScaleType, y: int, x: int)
      requires pix.Length1 > 0
      ensures Reused(ok, cache, source, m, y, x) <==>
                ok && (cache == source || (source.width % pix.Length1 == 0 && source.width >= 2 * pix.Length1 &&
                  var cs, dx, dy := source.width / pix.Length1, source.x - cache.x, source.y - cache.y;
                  && dx % cs == 0 && -source.width < dx + source.width - cache.width < source.width
                  && dy % cs == 0 && -source.height < dy + source.height - cache.height < source.height
                  && 0 <= y + dy / cs < pix.Length0 && 0 <= x + dx / cs < pix.Length1
                  && (dx == 0 || m == LoDef)))
    {
      var w := pix.Length1;
      if source.width % w == 0 {
        WholeQuotient(source.width, w);
        if source.width / w > 1 {
          AlignedStride(source.x - cache.x, source.width / w);
          AlignedStride(source.y - cache.y, source.width / w);
        }
      }
    }

    /** The two samplers agree on the pixels that are used again. */
    ghost predicate ReuseIsRight(ok: bool, cache: Rectangle, source: Rectangle, was: ScaleType, m: ScaleType)
      requires pix.Length1 > 0
    {
      forall y, x {:trigger Reused(ok, cache, source, m, y, x)} ::
        0 <= y < pix.Length0 && 0 <= x < pix.Length1 && Reused(ok, cache, source, m, y, x) ==>
          render(was, source, x, y) == render(m, source, x, y)
    }

    /** Move the pixels that stay, then draw the rows and the columns that came into view. */
    method PanBy(source: Rectangle, dest: Rectangle, m: ScaleType, scaledStrideRows: int, scaledStridePixels: int)
      requires Positional(render, pix.Length1) && dest == Rectangle(0, 0, pix.Length1, pix.Length0)
      requires Shows(cacheScaleMethod, cacheRect)
      requires pix.Length1 > 0 && source.width % pix.Length1 == 0 && source.width / pix.Length1 > 1
      requires cacheRect.width == source.width && cacheRect.height == source.height
      requires source.x - cacheRect.x == scaledStridePixels * (source.width / pix.Length1)
      requires source.y - cacheRect.y == scaledStrideRows * (source.width / pix.Length1)
      requires Abs(scaledStrideRows) < pix.Length0 && Abs(scaledStridePixels) < pix.Length1 && cachedImageOk
      modifies this, pix
      ensures forall y, x :: 0 <= y < pix.Length0 && 0 <= x < pix.Length1 ==>
                pix[y, x] == render(if Moved(m, scaledStrideRows, scaledStridePixels, y, x)
                                    then old(cacheScaleMethod) else m, source, x, y)
      ensures cacheRect == source && cachedImageOk && cacheScaleMethod == old(cacheScaleMethod)
    {
      NoStride(source.x - cacheRect.x, scaledStridePixels, source.width / pix.Length1);
      NoStride(source.y - cacheRect.y, scaledStrideRows, source.width / pix.Length1);
      ShiftPixels(source, cacheScaleMethod, scaledStrideRows, scaledStridePixels);
      if source.y != cacheRect.y {
        FillRows(source, dest, m, scaledStrideRows);
        cacheRect := cacheRect.(y := source.y);
        cacheRectScaled := dest;
        cachedImageOk := true;
      }
      if source.x != cacheRect.x {
        FillColumns(source, dest, m, scaledStridePixels);
        cacheRect := source;
        cacheRectScaled := dest;
        cachedImageOk := true;
      }
    }

    /** The tests of GetViewUsingCache that end, when they fail, in a full redraw. */
    method CanPan(source: Rectangle, dest: Rectangle, scaleX: real) returns (pans: bool)
      requires 0 < pix.Length1 && dest == Rectangle(0, 0, pix.Length1, pix.Length0)
      requires scaleX == source.width as real / dest.width as real
      requires Accepts(source.width, pix.Length1) ==> source.width % pix.Length1 == 0
      ensures pans <==> Pans(cacheRect, source)
      ensures pans <==>
                && source.width % pix.Length1 == 0 && source.width / pix.Length1 > 1
                && (source.x - cacheRect.x) % (source.width / pix.Length1) == 0
                && (source.y - cacheRect.y) % (source.width / pix.Length1) == 0
                && -source.width < source.x + source.width - (cacheRect.x + cacheRect.width) < source.width
                && -source.height < source.y + source.height - (cacheRect.y + cacheRect.height) < source.height
    {
      if source.width % dest.width == 0 { AcceptsWhole(source.width, dest.width); }
      if source.width / dest.width > 1 {
        AlignedStride(source.x - cacheRect.x, source.width / dest.width);
        AlignedStride(source.y - cacheRect.y, source.width / dest.width);
      }
      if Distance(scaleX, Round(scaleX) as real) > 0.0001 { return false; }
      if source.width % dest.width == 0 { WholeScale(source.width, dest.width); }
      if scaleX <= 1.0 { return false; }
      if source.width / dest.width != Round(scaleX) { return false; }
      var cs1d := source.width / dest.width;
      if Abs(source.x - cacheRect.x) % cs1d != 0 { return false; }
      if Abs(source.y - cacheRect.y) % cs1d != 0 { return false; }
      var strideRows := source.y + source.height - (cacheRect.y + cacheRect.height);
      if Abs(strideRows) >= source.height { return false; }
      var stridePixels := source.x + source.width - (cacheRect.x + cacheRect.width);
      if Abs(stridePixels) >= source.width { return false; }
      return true;
    }

    /** The pan itself, by the strides in pixels of the cache. */
    method PanTo(source: Rectangle, dest: Rectangle, scaleX: real, m: ScaleType)
      requires Positional(render, pix.Length1) && dest == Rectangle(0, 0, pix.Length1, pix.Length0) && cachedImageOk
      requires 0 < pix.Length1 && SameSize(source) && Shows(cacheScaleMethod, cacheRect)
      requires Pans(cacheRect, source) && Proportional(source) && scaleX == source.width as real / dest.width as real
      modifies this, pix
      ensures forall y, x :: 0 <= y < pix.Length0 && 0 <= x < pix.Length1 ==>
                pix[y, x] == render(if Moved(m, Strides(source.y - old(cacheRect.y), source.width / pix.Length1),
                                                Strides(source.x - old(cacheRect.x), source.width / pix.Length1), y, x)
                                    then old(cacheScaleMethod) else m, source, x, y)
      ensures cacheRect == source && cachedImageOk && cacheScaleMethod == old(cacheScaleMethod)
    {
      var cs1d := source.width / dest.width;
      WholeScale(source.width, dest.width);
      var strideRows := source.y + source.height - (cacheRect.y + cacheRect.height);
      var scaledStrideRows := Truncate(strideRows as real / scaleX);
      var stridePixels := source.x + source.width - (cacheRect.x + cacheRect.width);
      var scaledStridePixels := Truncate(stridePixels as real / scaleX);
      ScreenStride(strideRows, cs1d, pix.Length0);
      ScreenStride(stridePixels, cs1d, pix.Length1);
      PanBy(source, dest, m, scaledStrideRows, scaledStridePixels);
    }

    /**
     * GetViewUsingCache: whichever way is taken, afterwards every pixel shows the source rectangle, drawn by the
     * sampler asked for or, where the cache was used again, by the sampler of the cache.
     */
    method GetViewUsingCache(source: Rectangle, dest: Rectangle, scaleType: ScaleType) returns (drawn: bool)
      requires 0 < pix.Length1 && dest == Rectangle(0, 0, pix.Length1, pix.Length0)
      requires Accepts(source.width, pix.Length1) ==> source.width % pix.Length1 == 0
      requires Positional(render, pix.Length1) && Proportional(source)
      requires cachedImageOk && (cacheRect == source || Pans(cacheRect, source)) ==>
                 SameSize(source) && Shows(cacheScaleMethod, cacheRect)
      modifies this, pix
      ensures forall y, x :: 0 <= y < pix.Length0 && 0 <= x < pix.Length1 ==>
                var m := if source.width as real / pix.Length1 as real > bilinearLimit then LoDef else scaleType;
                pix[y, x] == render(if Reused(old(cachedImageOk), old(cacheRect), source, m, y, x)
                                    then old(cacheScaleMethod) else m, source, x, y)
      ensures var m := if source.width as real / pix.Length1 as real > bilinearLimit then LoDef else scaleType;
              Shows(m, source) <==> ReuseIsRight(old(cachedImageOk), old(cacheRect), source, old(cacheScaleMethod), m)
      ensures cachedImageOk && cacheRect == source
      ensures drawn <==> !(old(cachedImageOk) && old(cacheRect) == source)
      ensures cacheScaleMethod == if old(cachedImageOk) && (!drawn || Pans(old(cacheRect), source))
                                  then old(cacheScaleMethod)
                                  else if source.width as real / pix.Length1 as real > bilinearLimit then LoDef
                                  else scaleType
    {
      if source == cacheRect && cachedImageOk { return false; }
      var scaleX := source.width as real / dest.width as real;
      var corrected := scaleType;
      if scaleX > bilinearLimit { corrected := LoDef; }
      var pans := false;
      if cachedImageOk { pans := CanPan(source, dest, scaleX); }
      if pans {
        PanTo(source, dest, scaleX, corrected);
      } else {
        GetView(source, dest, corrected);
      }
      return true;
    }
  }

  /** A sampler whose two methods differ everywhere. */
  function TwoColours(m: ScaleType, source: Rectangle, x: int, y: int): Pixel { if m.HiDef? then 0 else 1 }

  /** Asking for the cached rectangle with the other sampler keeps the picture of the first. */
  method KeepsOldSampler() returns (chart: Chart, source: Rectangle)
    ensures chart.cachedImageOk && chart.cacheRect == source
    ensures chart.Shows(HiDef, source) && !chart.Shows(LoDef, source)
  {
    chart := new Chart(TwoColours, 10.0, 1, 1);
    source := Rectangle(0, 0, 2, 2);
    chart.GetView(source, Rectangle(0, 0, 1, 1), HiDef);
    var drawn := chart.GetViewUsingCache(source, Rectangle(0, 0, 1, 1), LoDef);
    assert chart.pix[0, 0] == 0;
  }
}
