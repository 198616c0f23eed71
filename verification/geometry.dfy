/** Grid geometry: cells, the board the canvas is cut into, its bounds,
    and the random cell a single food draw lands on. */
module Geometry {

  /** A cell of the grid, in grid coordinates. Snake segments and food are cells. */
  datatype Cell = Cell(x: int, y: int)

  /** The canvas in pixels and the side of one grid cell in pixels
      (`canvas.width`, `canvas.height` and `gridSize`). */
  datatype Board = Board(width: int, height: int, cellSize: int)

  /** The value of one call of `Math.random()`. */
  type Random = r: real | 0.0 <= r < 1.0

  /** The two random numbers one placement attempt of the food consumes. */
  datatype Draw = Draw(rx: Random, ry: Random)

  /** The canvas is cut into square cells of this many per side. */
  const CellsPerSide: int := 20

  /** A board on which the bounds test can be evaluated and every draw lands inside. */
  predicate WellFormed(b: Board)
  {
    b.cellSize > 0 && b.width > 0 && b.height > 0
  }

  /** The square board for a display whose smaller side is `size` pixels:
      the canvas takes that size and the cell side is `size / 20`, rounded down.
      Below 20 pixels the cell side would be 0, so that is excluded. */
  function Layout(size: int): (b: Board)
    requires size >= CellsPerSide
    ensures WellFormed(b) && b.width == size && b.height == size
    ensures Columns(b) >= CellsPerSide && Rows(b) >= CellsPerSide
  {
    var g := size / CellsPerSide;
    assert g * CellsPerSide <= size;
    assert (CellsPerSide - 1) * g < size;
    CeilDivAtLeast(size, g, CellsPerSide);
    Board(size, size, g)
  }

  /** The test the game applies to a candidate head: left of or above the
      board, or at or beyond the canvas size divided (as a real number)
      by the cell size. It rejects exactly the cells whose square does not
      start inside the canvas. */
  predicate OutOfBounds(b: Board, c: Cell)
    requires WellFormed(b)
    ensures OutOfBounds(b, c) <==> !InBoard(b, c)
  {
    RealBound(c.x, b.width, b.cellSize);
    RealBound(c.y, b.height, b.cellSize);
    c.x < 0 || c.x as real >= b.width as real / b.cellSize as real ||
    c.y < 0 || c.y as real >= b.height as real / b.cellSize as real
  }

  /** A cell whose square starts inside the canvas, in integer terms. */
  predicate InBoard(b: Board, c: Cell)
  {
    0 <= c.x && c.x * b.cellSize < b.width &&
    0 <= c.y && c.y * b.cellSize < b.height
  }

  /** The number of columns the game actually plays on: the canvas width
      divided by the cell size, rounded UP (a partial last column is playable). */
  function Columns(b: Board): int
    requires WellFormed(b)
  {
    (b.width + b.cellSize - 1) / b.cellSize
  }

  /** The number of rows, rounded up like `Columns`. */
  function Rows(b: Board): int
    requires WellFormed(b)
  {
    (b.height + b.cellSize - 1) / b.cellSize
  }

  /** A cell is on the board exactly when its coordinates are below `Columns` and `Rows`. */
  lemma InBoardIffBelowColumns(b: Board, c: Cell)
    requires WellFormed(b)
    ensures InBoard(b, c) <==> 0 <= c.x < Columns(b) && 0 <= c.y < Rows(b)
  {
    CeilDiv(c.x, b.width, b.cellSize);
    CeilDiv(c.y, b.height, b.cellSize);
  }

  /** For integer `k` and positive `g`: `k >= w / g` over the reals iff `k * g >= w`. */
  lemma RealBound(k: int, w: int, g: int)
    requires g > 0
    ensures k as real >= w as real / g as real <==> k * g >= w
  {
    var q := w as real / g as real;
    assert q * g as real == w as real;
    assert (k * g) as real == k as real * g as real;
    if k as real >= q {
      assert k as real * g as real >= q * g as real;
    } else {
      assert k as real * g as real < q * g as real;
    }
  }

  /** For positive `g`: `k * g < w` iff `k` is below `w / g` rounded up. */
  lemma CeilDiv(k: int, w: int, g: int)
    requires g > 0
    ensures k * g < w <==> k < (w + g - 1) / g
  {
    var q := (w + g - 1) / g;
    var m := (w + g - 1) % g;
    assert q * g + m == w + g - 1 && 0 <= m < g;
    if k < q {
      MulLe(k, q - 1, g);
      assert (q - 1) * g == q * g - g;
    } else {
      MulLe(q, k, g);
    }
  }

  /** Multiplying by a non-negative factor keeps the order. */
  lemma MulLe(a: int, b: int, g: int)
    requires a <= b && g >= 0
    ensures a * g <= b * g
  {
    assert b * g - a * g == (b - a) * g;
  }

  /** If `n - 1` cells of side `g` fit strictly inside `w`, then `w / g` rounded up is at least `n`. */
  lemma CeilDivAtLeast(w: int, g: int, n: int)
    requires g > 0 && (n - 1) * g < w
    ensures (w + g - 1) / g >= n
  {
    CeilDiv(n - 1, w, g);
  }

  /** One coordinate of a random cell, `Math.floor(r * (w / g))` for a random `r`:
      a value from 0 up to, but excluding, the real quotient `w / g`. */
  function Scaled(r: Random, w: int, g: int): (k: int)
    requires g > 0 && w > 0
    ensures 0 <= k && k * g < w
    ensures !(k as real >= w as real / g as real)
  {
    var q := w as real / g as real;
    var t := r * q;
    assert q > 0.0;
    assert 0.0 <= t < q by {
      assert r * q < 1.0 * q;
    }
    RealBound(t.Floor, w, g);
    t.Floor
  }

  /** The cell one placement attempt picks: each coordinate is
      `Math.floor(Math.random() * (canvas size / gridSize))`. It always lies on the board. */
  function Pick(b: Board, d: Draw): (c: Cell)
    requires WellFormed(b)
    ensures InBoard(b, c) && !OutOfBounds(b, c)
  {
    Cell(Scaled(d.rx, b.width, b.cellSize), Scaled(d.ry, b.height, b.cellSize))
  }
}
