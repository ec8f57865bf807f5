/**
  Grid-to-pixel placement for a `gg` canvas: the Canvas record, the
  derivation of its cell offsets and grid origin (`init`), and the
  transform from a zero-based grid intersection to a pixel position and
  an anchor pair (`setGridPos`).

  float64 fields are modelled as `real`, so every derived value is the
  exact-arithmetic idealisation of what the program computes. Go's
  `int(f)` conversion is modelled exactly, as truncation toward zero.
*/
module Grid {

  /** Go's conversion `int(r)` of a float to an int: truncation toward zero. */
  function Trunc(r: real): (n: int)
    ensures 0.0 <= r ==> 0 <= n && n as real <= r < n as real + 1.0
    ensures r < 0.0 ==> n <= 0 && n as real - 1.0 < r <= n as real
  {
    if r >= 0.0 then r.Floor else -((-r).Floor)
  }

  /**
    The product off * k, spelled out as k repeated additions of off (or
    subtractions, for negative k). SetGridPos uses it for its
    multiplications; TimesIsProduct shows it is the product.
  */
  function Times(off: int, k: int): (r: int)
    ensures 0 <= off && 0 <= k ==> 0 <= r
    decreases if k < 0 then -k else k
  {
    if k == 0 then 0
    else if k > 0 then Times(off, k - 1) + off
    else Times(off, k + 1) - off
  }

  lemma {:induction false} TimesIsProduct(off: int, k: int)
    ensures Times(off, k) == off * k
    decreases if k < 0 then -k else k
  {
    if k > 0 {
      TimesIsProduct(off, k - 1);
      assert off * (k - 1) + off == off * k;
    } else if k < 0 {
      TimesIsProduct(off, k + 1);
      assert off * (k + 1) - off == off * k;
    }
  }

  /** The canvas fields that the placement transform reads. */
  datatype GridGeometry = GridGeometry(gridX: int, gridY: int, X: real, Y: real, offsetX: real, offsetY: real)

  /** A pixel position plus the anchor pair a drawn element aligns by. */
  datatype Placement = Placement(px: int, py: int, ax: real, ay: real)

  /**
    The placement of grid intersection (x, y). Coordinates above gridX or
    gridY are pulled down to them; nothing clamps from below. Each axis is
    first set by a Go `switch` whose first matching case wins (0 before
    gridX), then overwritten for interior coordinates. A coordinate that
    matches no branch keeps Go's zero values, 0 and 0.0.
  */
  function SetGridPos(g: GridGeometry, x: int, y: int): (r: Placement)
    ensures r.ax in {0.0, 0.5, 1.0} && r.ay in {0.0, 0.5, 1.0}
  {
    var startX := Trunc(g.X);
    var startY := Trunc(g.Y);
    var cx := if x > g.gridX then g.gridX else x;
    var cy := if y > g.gridY then g.gridY else y;
    var (px0, ax0) :=
      if cx == 0 then (startX, 0.0)
      else if cx == g.gridX then (startX + Times(Trunc(g.offsetX), g.gridX), 1.0)
      else (0, 0.0);
    var (py0, ay0) :=
      if cy == 0 then (startY, 1.0)
      else if cy == g.gridY then (startY - Times(Trunc(g.offsetY), g.gridY), 0.0)
      else (0, 0.0);
    var (px, ax) := if 0 < cx < g.gridX then (startX + Times(Trunc(g.offsetX), cx), 0.5) else (px0, ax0);
    var (py, ay) := if 0 < cy < g.gridY then (startY - Times(Trunc(g.offsetY), cy), 0.5) else (py0, ay0);
    Placement(px, py, ax, ay)
  }

  /** Any x at or above gridX is placed as gridX. */
  lemma ClampX(g: GridGeometry, x: int, y: int)
    requires x >= g.gridX
    ensures SetGridPos(g, x, y) == SetGridPos(g, g.gridX, y)
  {
  }

  /** Any y at or above gridY is placed as gridY. */
  lemma ClampY(g: GridGeometry, x: int, y: int)
    requires y >= g.gridY
    ensures SetGridPos(g, x, y) == SetGridPos(g, x, g.gridY)
  {
  }

  /** The horizontal half of a placement depends on x alone, the vertical half on y alone. */
  lemma AxesIndependent(g: GridGeometry, x: int, y: int, x': int, y': int)
    ensures SetGridPos(g, x, y).px == SetGridPos(g, x, y').px
    ensures SetGridPos(g, x, y).ax == SetGridPos(g, x, y').ax
    ensures SetGridPos(g, x, y).py == SetGridPos(g, x', y).py
    ensures SetGridPos(g, x, y).ay == SetGridPos(g, x', y).ay
  {
  }

  /**
    On a grid with at least one column, every in-range x is placed at the
    same formula in every branch, and the anchor marks left edge, interior
    or right edge.
  */
  lemma HorizontalPlacement(g: GridGeometry, x: int, y: int)
    requires g.gridX >= 1 && 0 <= x <= g.gridX
    ensures SetGridPos(g, x, y).px == Trunc(g.X) + Trunc(g.offsetX) * x
    ensures x == 0 ==> SetGridPos(g, x, y).ax == 0.0
    ensures x == g.gridX ==> SetGridPos(g, x, y).ax == 1.0
    ensures 0 < x < g.gridX ==> SetGridPos(g, x, y).ax == 0.5
  {
    TimesIsProduct(Trunc(g.offsetX), x);
  }

  /** The vertical counterpart: y grows upward, from the bottom edge at y == 0. */
  lemma VerticalPlacement(g: GridGeometry, x: int, y: int)
    requires g.gridY >= 1 && 0 <= y <= g.gridY
    ensures SetGridPos(g, x, y).py == Trunc(g.Y) - Trunc(g.offsetY) * y
    ensures y == 0 ==> SetGridPos(g, x, y).ay == 1.0
    ensures y == g.gridY ==> SetGridPos(g, x, y).ay == 0.0
    ensures 0 < y < g.gridY ==> SetGridPos(g, x, y).ay == 0.5
  {
    TimesIsProduct(Trunc(g.offsetY), y);
  }

  lemma MulMonotone(a: int, b: int, c: int)
    requires 0 <= a && b <= c
    ensures a * b <= a * c
  {
    assert a * c - a * b == a * (c - b);
  }

  lemma MulStrict(a: int, b: int, c: int)
    requires 1 <= a && b < c
    ensures a * b < a * c
  {
    assert a * c - a * b == a * (c - b);
    MulMonotone(c - b, 1, a);
  }

  /**
    With a non-negative truncated cell width, px never decreases as x
    grows, also past gridX where the clamp holds it.
  */
  lemma HorizontalMonotone(g: GridGeometry, x: int, x': int, y: int)
    requires g.gridX >= 1 && 0 <= x <= x' && Trunc(g.offsetX) >= 0
    ensures SetGridPos(g, x, y).px <= SetGridPos(g, x', y).px
  {
    var cx := if x > g.gridX then g.gridX else x;
    var cx' := if x' > g.gridX then g.gridX else x';
    if x > g.gridX { ClampX(g, x, y); }
    if x' > g.gridX { ClampX(g, x', y); }
    HorizontalPlacement(g, cx, y);
    HorizontalPlacement(g, cx', y);
    MulMonotone(Trunc(g.offsetX), cx, cx');
  }

  /** With a truncated cell width of at least one pixel, px strictly increases across the grid. */
  lemma HorizontalStrict(g: GridGeometry, x: int, x': int, y: int)
    requires 0 <= x < x' <= g.gridX && Trunc(g.offsetX) >= 1
    ensures SetGridPos(g, x, y).px < SetGridPos(g, x', y).px
  {
    HorizontalPlacement(g, x, y);
    HorizontalPlacement(g, x', y);
    MulStrict(Trunc(g.offsetX), x, x');
  }

  /** With a non-negative truncated cell height, py never increases as y grows. */
  lemma VerticalMonotone(g: GridGeometry, x: int, y: int, y': int)
    requires g.gridY >= 1 && 0 <= y <= y' && Trunc(g.offsetY) >= 0
    ensures SetGridPos(g, x, y').py <= SetGridPos(g, x, y).py
  {
    var cy := if y > g.gridY then g.gridY else y;
    var cy' := if y' > g.gridY then g.gridY else y';
    if y > g.gridY { ClampY(g, x, y); }
    if y' > g.gridY { ClampY(g, x, y'); }
    VerticalPlacement(g, x, cy);
    VerticalPlacement(g, x, cy');
    MulMonotone(Trunc(g.offsetY), cy, cy');
  }

  /** With a truncated cell height of at least one pixel, py strictly decreases across the grid. */
  lemma VerticalStrict(g: GridGeometry, x: int, y: int, y': int)
    requires 0 <= y < y' <= g.gridY && Trunc(g.offsetY) >= 1
    ensures SetGridPos(g, x, y').py < SetGridPos(g, x, y).py
  {
    VerticalPlacement(g, x, y);
    VerticalPlacement(g, x, y');
    MulStrict(Trunc(g.offsetY), y, y');
  }

  /** A non-negative cell size truncated and multiplied by a count stays within the exact product. */
  lemma TruncMulBound(off: real, n: int)
    requires 0.0 <= off && 0 <= n
    ensures 0 <= Trunc(off) * n
    ensures (Trunc(off) * n) as real <= off * n as real
  {
    var t := Trunc(off);
    MulMonotone(t, 0, n);
    assert off * n as real - (t * n) as real == (off - t as real) * n as real;
  }

  /** n cells of size span / n, each truncated to whole pixels, still fit in span. */
  lemma CellsFit(off: real, n: int, span: int)
    requires n >= 1 && 0 <= span && off == span as real / n as real
    ensures 0 <= Trunc(off) && 0 <= Trunc(off) * n <= span
  {
    assert off * n as real == span as real;
    TruncMulBound(off, n);
  }

  /**
    On a grid laid out as `init` lays it out (origin at (p, w - p) and
    cells that divide w - 2p exactly, in both directions), every in-grid
    intersection is placed inside the padded square from p to w - p. The
    padding is taken to be a whole number of pixels, so that truncating
    the origin loses nothing.
  */
  lemma PlacementInsidePadding(g: GridGeometry, w: int, p: int, x: int, y: int)
    requires g.gridX >= 1 && g.gridY >= 1 && 0 <= 2 * p <= w
    requires g.X == p as real && g.Y == (w - p) as real
    requires g.offsetX == (w - 2 * p) as real / g.gridX as real
    requires g.offsetY == (w - 2 * p) as real / g.gridY as real
    requires 0 <= x <= g.gridX && 0 <= y <= g.gridY
    ensures p <= SetGridPos(g, x, y).px <= w - p
    ensures p <= SetGridPos(g, x, y).py <= w - p
  {
    HorizontalPlacement(g, x, y);
    VerticalPlacement(g, x, y);
    CellsFit(g.offsetX, g.gridX, w - 2 * p);
    CellsFit(g.offsetY, g.gridY, w - 2 * p);
    MulMonotone(Trunc(g.offsetX), 0, x);
    MulMonotone(Trunc(g.offsetY), 0, y);
    MulMonotone(Trunc(g.offsetX), x, g.gridX);
    MulMonotone(Trunc(g.offsetY), y, g.gridY);
  }

  /**
    With no columns, x == 0 matches both `case 0` and `case gridX`; the
    first case wins, so the left-edge placement is used.
  */
  lemma ZeroColumns(g: GridGeometry, x: int, y: int)
    requires g.gridX == 0 && x >= 0
    ensures SetGridPos(g, x, y).px == Trunc(g.X) && SetGridPos(g, x, y).ax == 0.0
  {
  }

  /** With no rows, y == 0 takes the bottom-edge placement. */
  lemma ZeroRows(g: GridGeometry, x: int, y: int)
    requires g.gridY == 0 && y >= 0
    ensures SetGridPos(g, x, y).py == Trunc(g.Y) && SetGridPos(g, x, y).ay == 1.0
  {
  }

  /** A negative x matches no branch and keeps the zero values 0 and 0.0. */
  lemma NegativeX(g: GridGeometry, x: int, y: int)
    requires g.gridX >= 0 && x < 0
    ensures SetGridPos(g, x, y).px == 0 && SetGridPos(g, x, y).ax == 0.0
  {
  }

  /** A negative y matches no branch and keeps the zero values 0 and 0.0. */
  lemma NegativeY(g: GridGeometry, x: int, y: int)
    requires g.gridY >= 0 && y < 0
    ensures SetGridPos(g, x, y).py == 0 && SetGridPos(g, x, y).ay == 0.0
  {
  }

  /**
    The image canvas. `width`, `height`, `padding`, `color`, `gridX` and
    `gridY` are set by the caller; `Init` derives the other four. The
    drawing context the program attaches here is not modelled: drawing
    operations return records instead.
  */
  class Canvas {
    var width: int
    var height: int
    var padding: real
    var color: string
    var gridX: int
    var gridY: int
    var offsetX: real
    var offsetY: real
    var X: real
    var Y: real

    /** A canvas as built by a struct literal: the derived fields hold their zero values. */
    constructor (width: int, height: int, padding: real, color: string, gridX: int, gridY: int)
      ensures this.width == width && this.height == height && this.padding == padding
      ensures this.color == color && this.gridX == gridX && this.gridY == gridY
      ensures offsetX == 0.0 && offsetY == 0.0 && X == 0.0 && Y == 0.0
    {
      this.width := width;
      this.height := height;
      this.padding := padding;
      this.color := color;
      this.gridX := gridX;
      this.gridY := gridY;
      offsetX, offsetY, X, Y := 0.0, 0.0, 0.0, 0.0;
    }

    /** The fields the placement transform reads. */
    function Geometry(): (g: GridGeometry)
      reads this
    {
      GridGeometry(gridX, gridY, X, Y, offsetX, offsetY)
    }

    /**
      Derives the cell offsets and the grid origin. The vertical values
      are computed from the width, as the program does, not from the
      height. The grid origin (X, Y) lands on the padding corner.
    */
    method Init()
      requires gridX != 0 && gridY != 0
      modifies this
      ensures width == old(width) && height == old(height) && padding == old(padding)
      ensures color == old(color) && gridX == old(gridX) && gridY == old(gridY)
      ensures offsetX == (width as real - 2.0 * padding) / gridX as real
      ensures offsetY == (width as real - 2.0 * padding) / gridY as real
      ensures offsetX * gridX as real == width as real - 2.0 * padding
      ensures offsetY * gridY as real == width as real - 2.0 * padding
      ensures X == padding
      ensures Y == width as real - padding
    {
      var w := width as real;
      var h := width as real;
      var p := padding;
      offsetX := (w - p - p) / gridX as real;
      offsetY := (h - p - p) / gridY as real;
      X := (w / 2.0) - offsetX * (gridX as real / 2.0);
      Y := (h / 2.0) + offsetY * (gridY as real / 2.0);
      assert offsetX * gridX as real == w - p - p;
      assert offsetY * gridY as real == h - p - p;
    }
  }

  /**
    The first demonstration canvas of the program: 1024 by 1024 pixels,
    padding 30, an 8 by 8 grid. After `init` its cells are 120.5 pixels
    wide and high and the grid origin is (30, 994).
  */
  method DemoLayer() returns (g: GridGeometry)
    ensures g == GridGeometry(8, 8, 30.0, 994.0, 120.5, 120.5)
  {
    var layer := new Canvas(1024, 1024, 30.0, "#FAFAFA", 8, 8);
    layer.Init();
    g := layer.Geometry();
  }

  /**
    Placements on the demonstration canvas: the bottom-left and top-right
    corners and an interior point. The 120.5-pixel cells are truncated to
    120 before multiplying.
  */
  lemma DemoPlacements()
    ensures var g := GridGeometry(8, 8, 30.0, 994.0, 120.5, 120.5);
      SetGridPos(g, 0, 0) == Placement(30, 994, 0.0, 1.0) &&
      SetGridPos(g, 8, 8) == Placement(990, 34, 1.0, 0.0) &&
      SetGridPos(g, 3, 5) == Placement(390, 394, 0.5, 0.5) &&
      SetGridPos(g, 12, -1) == Placement(990, 0, 1.0, 0.0)
  {
    var g := GridGeometry(8, 8, 30.0, 994.0, 120.5, 120.5);
    HorizontalPlacement(g, 8, 8);
    VerticalPlacement(g, 8, 8);
    HorizontalPlacement(g, 3, 5);
    VerticalPlacement(g, 3, 5);
    ClampX(g, 12, -1);
    HorizontalPlacement(g, 8, -1);
    NegativeY(g, 12, -1);
  }
}
