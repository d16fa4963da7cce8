/**
 * `generateBarcode`: choose a symbology from the card's type string, ask the
 * encoder for a bit matrix, and flatten that matrix into a row-major array of
 * ARGB pixels. Every failure, the encoder's and the bitmap's, becomes `None`.
 */
module Barcode {
  import opened Wrappers

  /** The side, in pixels, requested of the encoder for both dimensions. */
  const Size: int := 512

  /** `Color.Black.toArgb()`: 0xFF000000 read as a signed 32-bit Int. */
  const Black: int := -16777216

  /** `Color.White.toArgb()`: 0xFFFFFFFF read as a signed 32-bit Int. */
  const White: int := -1

  /** The two symbologies the app asks the encoder for. */
  datatype BarcodeFormat = QrCode | Ean13

  /**
   * The `when (type)` dispatch: exactly the strings "QR_CODE" and "EAN_13"
   * name a format; every other string names none.
   */
  function FormatOf(barcodeType: string): (r: Option<BarcodeFormat>)
    ensures r == Some(QrCode) <==> barcodeType == "QR_CODE"
    ensures r == Some(Ean13) <==> barcodeType == "EAN_13"
    ensures r == None <==> barcodeType != "QR_CODE" && barcodeType != "EAN_13"
  {
    if barcodeType == "QR_CODE" then Some(QrCode)
    else if barcodeType == "EAN_13" then Some(Ean13)
    else None
  }

  /**
   * A ZXing `BitMatrix`: `width` columns and `height` rows of modules, read
   * as `Get(x, y)` for column `x` and row `y`.
   */
  datatype BitMatrix = BitMatrix(width: nat, height: nat, rows: seq<seq<bool>>)
  {
    predicate Valid()
    {
      |rows| == height && forall y :: 0 <= y < height ==> |rows[y]| == width
    }

    function Get(x: nat, y: nat): bool
      requires Valid() && x < width && y < height
    {
      rows[y][x]
    }
  }

  type Matrix = m: BitMatrix | m.Valid() witness BitMatrix(0, 0, [])

  /**
   * The encoder, `MultiFormatWriter().encode(data, format, width, height)`:
   * a matrix, or `None` where the library throws (a payload the symbology
   * rejects, for one).
   */
  type Encoder = (string, BarcodeFormat, int, int) -> Option<Matrix>

  /** An Android `Bitmap` as the pixels it was filled with. */
  datatype Bitmap = Bitmap(width: nat, height: nat, pixels: seq<int>)

  /** The colour of one module: black for a set bit, white otherwise. */
  function PixelColor(bit: bool): (c: int)
    ensures c == Black <==> bit
    ensures c == White <==> !bit
  {
    if bit then Black else White
  }

  /** The row-major position of column `x`, row `y` in a `width`-wide image. */
  function FlatIndex(width: nat, x: nat, y: nat): nat
  {
    y * width + x
  }

  /** Every cell of a `width` by `height` grid has its position inside the array. */
  lemma FlatIndexInRange(width: nat, height: nat, x: nat, y: nat)
    requires x < width && y < height
    ensures FlatIndex(width, x, y) < width * height
  {
    calc {
      FlatIndex(width, x, y);
    <
      y * width + width;
    ==
      (y + 1) * width;
    <=  { MulMonotone(y + 1, height, width); }
      height * width;
    }
  }

  /** Multiplying by a natural number preserves the order of the factors. */
  lemma {:induction false} MulMonotone(a: nat, b: nat, c: nat)
    requires a <= b
    ensures a * c <= b * c
  {
    if a < b {
      MulMonotone(a, b - 1, c);
      assert (b - 1) * c + c == b * c;
    }
  }

  /** Two cells of a grid never share a position: the flattening is injective. */
  lemma FlatIndexInjective(width: nat, x1: nat, y1: nat, x2: nat, y2: nat)
    requires x1 < width && x2 < width
    requires FlatIndex(width, x1, y1) == FlatIndex(width, x2, y2)
    ensures x1 == x2 && y1 == y2
  {
    if y1 < y2 {
      MulMonotone(y1 + 1, y2, width);
      assert false;
    } else if y2 < y1 {
      MulMonotone(y2 + 1, y1, width);
      assert false;
    }
  }

  /**
   * Every position of the array belongs to a cell of the grid: the
   * flattening is onto, with column `i % width` and row `i / width`.
   */
  lemma FlatIndexOnto(width: nat, height: nat, i: nat)
    requires i < width * height
    ensures width > 0 && i % width < width && i / width < height
    ensures FlatIndex(width, i % width, i / width) == i
  {
    if i / width >= height {
      MulMonotone(height, i / width, width);
    }
  }

  /**
   * The image of a matrix as the row-major array of pixel colours, defined
   * position by position; the loop in `GenerateBarcode` fills it cell by cell.
   */
  function Rasterize(m: Matrix): (pixels: seq<int>)
    ensures |pixels| == m.width * m.height
  {
    seq(m.width * m.height, i requires 0 <= i < m.width * m.height => RasterPixel(m, i))
  }

  function RasterPixel(m: Matrix, i: nat): int
    requires i < m.width * m.height
  {
    FlatIndexOnto(m.width, m.height, i);
    PixelColor(m.Get(i % m.width, i / m.width))
  }

  /** The pixel at the position of cell (x, y) shows that cell's module. */
  lemma RasterizeAt(m: Matrix, x: nat, y: nat)
    requires x < m.width && y < m.height
    ensures FlatIndex(m.width, x, y) < |Rasterize(m)|
    ensures Rasterize(m)[FlatIndex(m.width, x, y)] == PixelColor(m.Get(x, y))
  {
    var i := FlatIndex(m.width, x, y);
    FlatIndexInRange(m.width, m.height, x, y);
    FlatIndexOnto(m.width, m.height, i);
    FlatIndexInjective(m.width, x, y, i % m.width, i / m.width);
  }

  /**
   * An image of the right length that shows every module at its cell's
   * position is the raster of the matrix: the cells cover every position, so
   * nothing else is left to choose.
   */
  lemma RasterizeUnique(m: Matrix, pixels: seq<int>)
    requires |pixels| == m.width * m.height
    requires forall x: nat, y: nat :: x < m.width && y < m.height ==>
      FlatIndex(m.width, x, y) < |pixels| &&
      pixels[FlatIndex(m.width, x, y)] == PixelColor(m.Get(x, y))
    ensures pixels == Rasterize(m)
  {
    forall i | 0 <= i < |pixels|
      ensures pixels[i] == Rasterize(m)[i]
    {
      FlatIndexOnto(m.width, m.height, i);
      var x, y := i % m.width, i / m.width;
      assert pixels[FlatIndex(m.width, x, y)] == PixelColor(m.Get(x, y));
    }
  }

  /**
   * The nested loop of `generateBarcode`: a fresh `IntArray(width * height)`
   * filled row by row, the pixel of module (x, y) at `y * width + x`.
   */
  method Flatten(m: Matrix) returns (pixels: array<int>)
    ensures fresh(pixels)
    ensures pixels.Length == m.width * m.height
    ensures forall x: nat, y: nat :: x < m.width && y < m.height ==>
      FlatIndex(m.width, x, y) < pixels.Length &&
      pixels[FlatIndex(m.width, x, y)] == PixelColor(m.Get(x, y))
  {
    var width, height := m.width, m.height;
    pixels := new int[width * height];
    var y := 0;
    while y < height
      invariant 0 <= y <= height
      invariant forall xx: nat, yy: nat :: xx < width && yy < y ==>
        FlatIndex(width, xx, yy) < pixels.Length &&
        pixels[FlatIndex(width, xx, yy)] == PixelColor(m.Get(xx, yy))
    {
      var offset := y * width;
      var x := 0;
      while x < width
        invariant 0 <= x <= width
        invariant forall xx: nat, yy: nat :: xx < width && yy < y ==>
          FlatIndex(width, xx, yy) < pixels.Length &&
          pixels[FlatIndex(width, xx, yy)] == PixelColor(m.Get(xx, yy))
        invariant forall xx: nat :: xx < x ==>
          FlatIndex(width, xx, y) < pixels.Length &&
          pixels[FlatIndex(width, xx, y)] == PixelColor(m.Get(xx, y))
      {
        FlatIndexInRange(width, height, x, y);
        forall xx: nat, yy: nat | xx < width && yy <= y && (yy < y || xx < x)
          ensures FlatIndex(width, xx, yy) != offset + x
        {
          if FlatIndex(width, xx, yy) == FlatIndex(width, x, y) {
            FlatIndexInjective(width, xx, yy, x, y);
          }
        }
        assert FlatIndex(width, x, y) == offset + x;
        pixels[offset + x] := PixelColor(m.Get(x, y));
        assert pixels[FlatIndex(width, x, y)] == PixelColor(m.Get(x, y));
        x := x + 1;
      }
      y := y + 1;
    }
  }

  /**
   * `generateBarcode(data, type)`. An unknown type gives `None` whatever the
   * encoder would do; an encoder failure gives `None`; a matrix with no
   * columns or no rows gives `None` (`Bitmap.createBitmap` rejects it). Any
   * other matrix gives a bitmap of its size whose pixel at `y * width + x`
   * is black exactly when module (x, y) is set.
   */
  method GenerateBarcode(data: string, barcodeType: string, encode: Encoder)
    returns (r: Option<Bitmap>)
    ensures FormatOf(barcodeType).None? ==> r.None?
    ensures FormatOf(barcodeType).Some? ==>
      var encoded := encode(data, FormatOf(barcodeType).value, Size, Size);
      (encoded.None? ==> r.None?) &&
      (encoded.Some? ==>
        var m := encoded.value;
        (r.Some? <==> m.width > 0 && m.height > 0) &&
        (r.Some? ==>
          r.value.width == m.width && r.value.height == m.height &&
          |r.value.pixels| == m.width * m.height &&
          r.value.pixels == Rasterize(m) &&
          forall x: nat, y: nat :: x < m.width && y < m.height ==>
            FlatIndex(m.width, x, y) < |r.value.pixels| &&
            r.value.pixels[FlatIndex(m.width, x, y)] == PixelColor(m.Get(x, y))))
  {
    var format := FormatOf(barcodeType);
    if format.None? {
      return None;
    }
    var encoded := encode(data, format.value, Size, Size);
    if encoded.None? {
      return None;
    }
    var m := encoded.value;
    var pixels := Flatten(m);
    if m.width == 0 || m.height == 0 {
      return None;
    }
    RasterizeUnique(m, pixels[..]);
    r := Some(Bitmap(m.width, m.height, pixels[..]));
  }
}
