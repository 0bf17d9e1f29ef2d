/** Cell geometry of a DMI sprite sheet: sprites are cells of a fixed size,
    numbered row-major across the image. Loading cuts cell `i` out at
    `((i % cols) * w, (i / cols) * h)` (src/icon.rs:427-437); saving places
    sprite `i` at `(w * (i % cols), h * (i / cols))` (src/icon.rs:538-547,
    src/dmi/icon.rs:343-352). */
module Grid {
  import opened Common

  // ---- arithmetic ----

  lemma MulMono(a: nat, b: nat, w: nat)
    requires a <= b
    ensures a * w <= b * w
  {
  }

  lemma MulStep(a: nat, w: nat)
    ensures (a + 1) * w == a * w + w
  {
  }

  /** `i` is row `i / cols`, column `i % cols`, and nothing else is. */
  lemma DivModUnique(i: nat, j: nat, cols: nat)
    requires cols > 0
    requires i % cols == j % cols && i / cols == j / cols
    ensures i == j
  {
    assert i == cols * (i / cols) + i % cols;
    assert j == cols * (j / cols) + j % cols;
  }

  /** Euclidean division is determined by quotient and remainder. */
  lemma DivUnique(n: nat, d: nat, q: nat, r: nat)
    requires d > 0 && r < d && n == q * d + r
    ensures n / d == q && n % d == r
  {
    var q1 := n / d;
    var r1 := n % d;
    assert n == q1 * d + r1;
    if q1 > q {
      MulMono(q + 1, q1, d);
      MulStep(q, d);
    } else if q1 < q {
      MulMono(q1 + 1, q, d);
      MulStep(q1, d);
    }
  }

  lemma MulDiv(a: nat, w: nat)
    requires w > 0
    ensures (a * w) / w == a && (a * w) % w == 0
  {
    DivUnique(a * w, w, a, 0);
  }

  /** A cell below `cols * rows` lies in one of the `rows` rows. */
  lemma RowBound(i: nat, cols: nat, rows: nat)
    requires cols > 0 && i < cols * rows
    ensures i / cols < rows
  {
    var q := i / cols;
    assert i == q * cols + i % cols;
    if q >= rows {
      MulMono(rows, q, cols);
    }
  }

  /** A row or column below `n` cells ends within `n` cells. */
  lemma CellEnd(a: nat, n: nat, w: nat)
    requires a < n
    ensures a * w + w <= n * w
  {
    MulStep(a, w);
    MulMono(a + 1, n, w);
  }

  // ---- sheet size ----

  function CeilSqrtFrom(n: nat, r: nat): (c: nat)
    requires r == 0 || (r - 1) * (r - 1) < n
    decreases n - r
    ensures n <= c * c && (c == 0 || (c - 1) * (c - 1) < n)
  {
    if n <= r * r then r
    else
      assert r <= r * r;
      CeilSqrtFrom(n, r + 1)
  }

  /** `(n as f64).sqrt().ceil()`, computed on integers: the least `r` with
      `n <= r * r`. */
  function CeilSqrt(n: nat): (r: nat)
    ensures n <= r * r
    ensures r == 0 || (r - 1) * (r - 1) < n
  {
    CeilSqrtFrom(n, 0)
  }

  /** `(n as f64 / d as f64).ceil()` for a positive `d`: the least `q` with
      `n <= q * d`. */
  function CeilDiv(n: nat, d: nat): (q: nat)
    requires d > 0
    ensures n <= q * d
    ensures q == 0 || (q - 1) * d < n
  {
    var q0 := n / d;
    assert n == q0 * d + n % d;
    if n % d == 0 then q0
    else
      MulStep(q0, d);
      q0 + 1
  }

  /** The sheet `Icon::save` lays `n` sprites on (src/icon.rs:531-534): as
      many columns as the ceiling of the square root, then only as many
      rows as the sprites fill. No sprites give a sheet of no cells (the
      floating-point `0 / 0` is NaN, which converts to 0). */
  function SheetSize(n: nat): (r: (nat, nat))
    ensures n <= r.0 * r.1
    ensures r.1 <= r.0
    ensures r.1 == 0 || (r.1 - 1) * r.0 < n
    ensures n > 0 <==> r.0 > 0 && r.1 > 0
  {
    var cols := CeilSqrt(n);
    if cols == 0 then (0, 0)
    else
      var rows := CeilDiv(n, cols);
      assert rows <= cols by {
        if rows > cols {
          MulMono(cols, rows - 1, cols);
        }
      }
      (cols, rows)
  }

  /** The square sheet of the older `Icon::save` (src/dmi/icon.rs:339-341):
      `m` columns and `m` rows, `m` the ceiling of the square root. */
  function SquareSize(n: nat): (m: nat)
    ensures n <= m * m
    ensures m == 0 || (m - 1) * (m - 1) < n
  {
    CeilSqrt(n)
  }

  // ---- cell positions ----

  /** The top-left pixel of cell `i` as loading computes it. */
  function CellOrigin(i: nat, cols: nat, w: nat, h: nat): (p: (nat, nat))
    requires cols > 0
  {
    ((i % cols) * w, (i / cols) * h)
  }

  /** The top-left pixel at which saving places sprite `i`. */
  function PlaceOrigin(i: nat, cols: nat, w: nat, h: nat): (p: (nat, nat))
    requires cols > 0
  {
    (w * (i % cols), h * (i / cols))
  }

  /** The cells of a sheet `cols` by `rows` cells of `w` by `h` pixels: each
      of the first `cols * rows` lies inside the image, and two different
      ones do not overlap. */
  lemma CellsTile(i: nat, j: nat, cols: nat, rows: nat, w: nat, h: nat)
    requires cols > 0 && i < cols * rows && j < cols * rows
    ensures CellOrigin(i, cols, w, h).0 + w <= cols * w
    ensures CellOrigin(i, cols, w, h).1 + h <= rows * h
    ensures i != j && w > 0 && h > 0 ==>
      var (xi, yi) := CellOrigin(i, cols, w, h);
      var (xj, yj) := CellOrigin(j, cols, w, h);
      xi + w <= xj || xj + w <= xi || yi + h <= yj || yj + h <= yi
  {
    CellEnd(i % cols, cols, w);
    RowBound(i, cols, rows);
    CellEnd(i / cols, rows, h);
    if i != j && w > 0 && h > 0 {
      if i % cols != j % cols {
        if i % cols < j % cols {
          CellEnd(i % cols, j % cols, w);
        } else {
          CellEnd(j % cols, i % cols, w);
        }
      } else if i / cols != j / cols {
        if i / cols < j / cols {
          CellEnd(i / cols, j / cols, h);
        } else {
          CellEnd(j / cols, i / cols, h);
        }
      } else {
        DivModUnique(i, j, cols);
      }
    }
  }

  /** Saving and loading use the same row-major flattening. A sheet saved
      from `n` sprites of `w` by `h` pixels passes the geometry checks of
      loading (nonzero, whole numbers of cells), has room for all `n`, is
      read back `cols` cells wide, and cell `i` is read from the pixel at
      which sprite `i` was placed. */
  lemma SavedSheetReadsBack(n: nat, w: nat, h: nat)
    requires n > 0 && w > 0 && h > 0
    ensures var (cols, rows) := SheetSize(n);
      var img_width := cols * w;
      var img_height := rows * h;
      && img_width > 0 && img_height > 0
      && img_width % w == 0 && img_height % h == 0
      && img_width / w == cols && img_height / h == rows
      && n <= (img_width / w) * (img_height / h)
      && forall i :: 0 <= i < n ==> CellOrigin(i, img_width / w, w, h) == PlaceOrigin(i, cols, w, h)
  {
    var (cols, rows) := SheetSize(n);
    MulDiv(cols, w);
    MulDiv(rows, h);
    MulMono(1, cols, w);
    MulMono(1, rows, h);
    forall i | 0 <= i < n
      ensures CellOrigin(i, cols, w, h) == PlaceOrigin(i, cols, w, h)
    {
      SameOrigin(i, cols, w, h);
    }
  }

  lemma SameOrigin(i: nat, cols: nat, w: nat, h: nat)
    requires cols > 0
    ensures CellOrigin(i, cols, w, h) == PlaceOrigin(i, cols, w, h)
  {
  }

  /** The same holds for the square sheet of the older save. */
  lemma SquareSheetReadsBack(n: nat, w: nat, h: nat)
    requires n > 0 && w > 0 && h > 0
    ensures var m := SquareSize(n);
      && m * w > 0 && m * h > 0
      && (m * w) % w == 0 && (m * h) % h == 0
      && n <= ((m * w) / w) * ((m * h) / h)
      && forall i :: 0 <= i < n ==> CellOrigin(i, (m * w) / w, w, h) == PlaceOrigin(i, m, w, h)
  {
    var m := SquareSize(n);
    MulDiv(m, w);
    MulDiv(m, h);
    MulMono(1, m, w);
    MulMono(1, m, h);
    forall i | 0 <= i < n
      ensures CellOrigin(i, m, w, h) == PlaceOrigin(i, m, w, h)
    {
      SameOrigin(i, m, w, h);
    }
  }

  // ---- cutting a cell out of an RGBA buffer ----

  const RGBA_PIXEL_STRIDE: nat := 4

  /** Rows `y .. y + h` of a buffer whose rows are `row_stride` bytes, each
      cut to the `row_len` bytes from byte `xb` on, one after another. */
  function Rows(rgba: seq<byte>, row_stride: nat, xb: nat, row_len: nat, y: nat, h: nat): (t: seq<byte>)
    requires xb + row_len <= row_stride && (y + h) * row_stride <= |rgba|
    decreases h
    ensures |t| == h * row_len
  {
    if h == 0 then []
    else
      var row := y + h - 1;
      MulStep(row, row_stride);
      MulMono(row + 1, y + h, row_stride);
      MulStep(h - 1, row_len);
      Rows(rgba, row_stride, xb, row_len, y, h - 1) + rgba[row * row_stride + xb .. row * row_stride + xb + row_len]
  }

  /** Byte `c` of row `r` of the cut is byte `xb + c` of row `y + r` of the buffer. */
  lemma {:induction false} RowsAt(rgba: seq<byte>, row_stride: nat, xb: nat, row_len: nat, y: nat, h: nat, r: nat, c: nat)
    requires xb + row_len <= row_stride && (y + h) * row_stride <= |rgba|
    requires r < h && c < row_len
    decreases h
    ensures r * row_len + c < h * row_len
    ensures (y + r) * row_stride + xb + c < |rgba|
    ensures Rows(rgba, row_stride, xb, row_len, y, h)[r * row_len + c] == rgba[(y + r) * row_stride + xb + c]
  {
    CellEnd(r, h, row_len);
    CellEnd(y + r, y + h, row_stride);
    var t0 := Rows(rgba, row_stride, xb, row_len, y, h - 1);
    var row := y + h - 1;
    MulStep(row, row_stride);
    MulMono(row + 1, y + h, row_stride);
    var last := rgba[row * row_stride + xb .. row * row_stride + xb + row_len];
    assert Rows(rgba, row_stride, xb, row_len, y, h) == t0 + last;
    MulStep(h - 1, row_len);
    assert |t0| == (h - 1) * row_len;
    if r < h - 1 {
      CellEnd(r, h - 1, row_len);
      RowsAt(rgba, row_stride, xb, row_len, y, h - 1, r, c);
    } else {
      assert r * row_len + c == |t0| + c;
    }
  }

  /** The `width` by `height` pixel tile at pixel (x, y) of an RGBA image
      `img_width` pixels wide. */
  function Tile(rgba: seq<byte>, img_width: nat, x: nat, y: nat, width: nat, height: nat): (t: seq<byte>)
    requires x + width <= img_width && (y + height) * (img_width * 4) <= |rgba|
    ensures |t| == width * height * 4
  {
    MulMono(x + width, img_width, 4);
    Scale4(width, height);
    Rows(rgba, img_width * 4, x * 4, width * 4, y, height)
  }

  /** Pixel (c, r) of the tile is pixel (x + c, y + r) of the image, all
      four channels. */
  lemma TilePixel(rgba: seq<byte>, img_width: nat, x: nat, y: nat, width: nat, height: nat, r: nat, c: nat, k: nat)
    requires x + width <= img_width && (y + height) * (img_width * 4) <= |rgba|
    requires r < height && c < width && k < 4
    ensures (r * width + c) * 4 + k < width * height * 4
    ensures ((y + r) * img_width + x + c) * 4 + k < |rgba|
    ensures Tile(rgba, img_width, x, y, width, height)[(r * width + c) * 4 + k]
         == rgba[((y + r) * img_width + x + c) * 4 + k]
  {
    MulMono(x + width, img_width, 4);
    RowsAt(rgba, img_width * 4, x * 4, width * 4, y, height, r, c * 4 + k);
    Scale4(r, width);
    Scale4(y + r, img_width);
    Scale4(width, height);
  }

  lemma Scale4(a: nat, b: nat)
    ensures (a * b) * 4 == a * (b * 4) == (a * 4) * b
  {
  }

  /** The crop loop of `load_internal` for one cell (src/icon.rs:428-437):
      for each pixel row of the cell, the slice of that row is appended. */
  method CropCell(rgba_bytes: seq<byte>, img_width: nat, x: nat, y: nat, width: nat, height: nat)
    returns (cropped: seq<byte>)
    requires x + width <= img_width && (y + height) * (img_width * 4) <= |rgba_bytes|
    ensures cropped == Tile(rgba_bytes, img_width, x, y, width, height)
  {
    var row_stride := img_width * RGBA_PIXEL_STRIDE;
    MulMono(x + width, img_width, 4);
    cropped := [];
    for row := y to y + height
      invariant cropped == Rows(rgba_bytes, row_stride, x * 4, width * 4, y, row - y)
    {
      var start := (row * row_stride) + (x * RGBA_PIXEL_STRIDE);
      var end := start + (width * RGBA_PIXEL_STRIDE);
      MulStep(row, row_stride);
      MulMono(row + 1, y + height, row_stride);
      cropped := cropped + rgba_bytes[start..end];
    }
  }

  /** Cell `i` of an image made of whole `w` by `h` cells lies inside it. */
  lemma CellInside(img_width: nat, img_height: nat, w: nat, h: nat, i: nat)
    requires w > 0 && h > 0 && img_width % w == 0 && img_height % h == 0
    requires i < (img_width / w) * (img_height / h)
    ensures CellOrigin(i, img_width / w, w, h).0 + w <= img_width
    ensures (CellOrigin(i, img_width / w, w, h).1 + h) * (img_width * 4) <= img_width * 4 * img_height
  {
    var cols: nat := img_width / w;
    var rows: nat := img_height / h;
    CellsTile(i, i, cols, rows, w, h);
    assert cols * w == img_width && rows * h == img_height;
    MulMono(CellOrigin(i, cols, w, h).1 + h, img_height, img_width * 4);
  }

  /** Cell `i` of an image `cols` by `rows` cells of `w` by `h` pixels, cut out. */
  function CellTile(rgba: seq<byte>, img_width: nat, img_height: nat, w: nat, h: nat, i: nat): (t: seq<byte>)
    requires w > 0 && h > 0 && img_width % w == 0 && img_height % h == 0
    requires |rgba| == img_width * 4 * img_height
    requires i < (img_width / w) * (img_height / h)
    ensures |t| == w * h * 4
  {
    CellInside(img_width, img_height, w, h, i);
    var (x, y) := CellOrigin(i, img_width / w, w, h);
    Tile(rgba, img_width, x, y, w, h)
  }
}
