/**
  The two rendering passes over a Canvas: grid references at every
  intersection (`drawGridRef`) and the guide lines (`drawGridLines`).
  Each call the program makes on its `gg` drawing context is returned
  here as a DrawOp record, in the order the program issues it.
*/
module Draw {
  import opened Grid
  import Decimal

  /** One call on the drawing context. */
  datatype DrawOp =
    | SetLineWidth(lineWidth: real)
    | SetRGBA255(r: int, g: int, b: int, a: int)
    | SetFontFace(points: real)
    | Line(x1: real, y1: real, x2: real, y2: real)
    | Rectangle(x: real, y: real, w: real, h: real)
    | Stroke
    | Image(px: int, py: int, ax: real, ay: real)
    | Text(caption: string, x: real, y: real, ax: real, ay: real)

  // ---------------------------------------------------------------------
  // Grid reference labels

  /** The label of intersection (x, y): `fmt.Sprintf("%d,%d", x, y)`. */
  function Label(x: int, y: int): (s: string)
    ensures CommaIndex(s) == |Decimal.IntToString(x)|
  {
    Decimal.IntToStringShape(x);
    CommaIndexAfter(Decimal.IntToString(x), Decimal.IntToString(y));
    Decimal.IntToString(x) + "," + Decimal.IntToString(y)
  }

  /** The position of the first comma in s, or |s| when there is none. */
  function CommaIndex(s: string): (k: nat)
    ensures k <= |s|
  {
    if s == [] || s[0] == ',' then 0 else 1 + CommaIndex(s[1..])
  }

  /** The comma after a comma-free prefix is the first one. */
  lemma {:induction false} CommaIndexAfter(a: string, b: string)
    requires forall i :: 0 <= i < |a| ==> a[i] != ','
    ensures CommaIndex(a + "," + b) == |a|
  {
    var s := a + "," + b;
    if a == [] {
      assert s[0] == ',';
    } else {
      assert s[0] == a[0];
      assert s[1..] == a[1..] + "," + b;
      CommaIndexAfter(a[1..], b);
    }
  }

  /** Every intersection gets its own label. */
  lemma LabelInjective(x: int, y: int, x': int, y': int)
    requires Label(x, y) == Label(x', y')
    ensures x == x' && y == y'
  {
    var a, b := Decimal.IntToString(x), Decimal.IntToString(y);
    var a', b' := Decimal.IntToString(x'), Decimal.IntToString(y');
    var s := Label(x, y);
    Decimal.IntToStringShape(x);
    Decimal.IntToStringShape(x');
    CommaIndexAfter(a, b);
    CommaIndexAfter(a', b');
    assert a == s[..|a|] == a';
    assert b == s[|a| + 1..] == b';
    Decimal.IntToStringInjective(x, x');
    Decimal.IntToStringInjective(y, y');
  }

  // ---------------------------------------------------------------------
  // Visiting order of drawGridRef

  predicate InGrid(gridX: int, gridY: int, v: (int, int)) {
    0 <= v.0 <= gridX && 0 <= v.1 <= gridY
  }

  /** The bound of the inner loop: the larger grid dimension. */
  function SetMax(gridX: int, gridY: int): (m: int)
    ensures gridX <= m && gridY <= m && (m == gridX || m == gridY)
  {
    if gridX > gridY then gridX else gridY
  }

  /** The bound of the outer loop: the smaller grid dimension. */
  function SetMin(gridX: int, gridY: int): (m: int)
    ensures m <= gridX && m <= gridY && (m == gridX || m == gridY)
  {
    if gridX > gridY then gridY else gridX
  }

  /**
    The intersection visited for outer counter `small` and inner counter
    `large`: the outer counter is x unless there are more columns than rows.
  */
  function Visit(gridX: int, gridY: int, small: int, large: int): (v: (int, int))
    ensures InGrid(gridX, gridY, v) <==> 0 <= small <= SetMin(gridX, gridY) && 0 <= large <= SetMax(gridX, gridY)
  {
    if gridX > gridY then (large, small) else (small, large)
  }

  /** One pass of the inner loop: the first n inner counters for outer counter i. */
  function Row(gridX: int, gridY: int, i: int, n: int): (r: seq<(int, int)>)
    ensures |r| == if n < 0 then 0 else n
  {
    if n <= 0 then [] else Row(gridX, gridY, i, n - 1) + [Visit(gridX, gridY, i, n - 1)]
  }

  /** The first n passes of the outer loop, each a full pass of the inner loop. */
  function Rows(gridX: int, gridY: int, n: nat): (r: seq<(int, int)>)
    ensures r == [] <==> n == 0 || SetMax(gridX, gridY) < 0
  {
    if n == 0 then [] else Rows(gridX, gridY, n - 1) + Row(gridX, gridY, n - 1, SetMax(gridX, gridY) + 1)
  }

  /**
    The intersections in the order drawGridRef visits them: setMin + 1
    passes of the outer loop, none when a grid dimension is negative.
  */
  function Traversal(gridX: int, gridY: int): (r: seq<(int, int)>)
    ensures r == [] <==> gridX < 0 || gridY < 0
  {
    if gridX < 0 || gridY < 0 then [] else Rows(gridX, gridY, SetMin(gridX, gridY) + 1)
  }

  lemma MulSucc(n: int, k: int)
    ensures (n + 1) * k == n * k + k
  {
  }

  /** Division and remainder recover the two counters from a flat index. */
  lemma DivModIndex(i: int, j: int, m: int)
    requires 0 <= i && 0 <= j < m
    ensures (i * m + j) / m == i && (i * m + j) % m == j
  {
    var k := i * m + j;
    var q, r := k / m, k % m;
    assert m * q + r == k;
    assert m * (q - i) == j - r;
    if q > i {
      MulMonotone(m, 1, q - i);
      assert false;
    } else if q < i {
      MulMonotone(m, 1, i - q);
      assert false;
    }
  }

  /** Distinct flat indices differ in their quotient or their remainder. */
  lemma FlatIndexInjective(k: int, k': int, m: int)
    requires 0 <= k < k' && 1 <= m
    ensures k / m != k' / m || k % m != k' % m
  {
    assert m * (k / m) + k % m == k;
    assert m * (k' / m) + k' % m == k';
  }

  /** The flat index of a visit is below the number of visits. */
  lemma IndexBound(i: int, j: int, m: int, n: int)
    requires 0 <= i < n && 0 <= j < m
    ensures i * m + j < n * m
  {
    MulMonotone(m, i + 1, n);
  }

  /** An index below n * m has an outer counter below n. */
  lemma QuotientBound(k: int, m: int, n: int)
    requires 0 <= k < n * m && 1 <= m
    ensures 0 <= k / m < n
  {
    if k / m >= n {
      MulMonotone(m, n, k / m);
      assert false;
    }
  }

  /** Element j of a pass of the inner loop is the visit with inner counter j. */
  lemma {:induction false} RowAt(gridX: int, gridY: int, i: int, n: nat, j: int)
    requires 0 <= j < n
    ensures Row(gridX, gridY, i, n)[j] == Visit(gridX, gridY, i, j)
  {
    if j < n - 1 {
      RowAt(gridX, gridY, i, n - 1, j);
    }
  }

  /**
    After n passes of the outer loop there have been n * m visits, m per
    pass, and visit k has outer counter k / m and inner counter k % m.
  */
  lemma {:induction false} RowsAt(gridX: int, gridY: int, n: nat)
    requires SetMax(gridX, gridY) >= 0
    ensures var m := SetMax(gridX, gridY) + 1;
      |Rows(gridX, gridY, n)| == n * m &&
      forall k :: 0 <= k < |Rows(gridX, gridY, n)| ==> Rows(gridX, gridY, n)[k] == Visit(gridX, gridY, k / m, k % m)
  {
    var m := SetMax(gridX, gridY) + 1;
    if n > 0 {
      RowsAt(gridX, gridY, n - 1);
      var front := Rows(gridX, gridY, n - 1);
      var row := Row(gridX, gridY, n - 1, m);
      assert Rows(gridX, gridY, n) == front + row;
      MulSucc(n - 1, m);
      forall k | 0 <= k < n * m
        ensures (front + row)[k] == Visit(gridX, gridY, k / m, k % m)
      {
        if k >= |front| {
          var j := k - |front|;
          RowAt(gridX, gridY, n - 1, m, j);
          DivModIndex(n - 1, j, m);
        }
      }
    }
  }

  /** There is one visit per intersection. */
  lemma TraversalLength(gridX: int, gridY: int)
    ensures |Traversal(gridX, gridY)| == if gridX < 0 || gridY < 0 then 0 else (gridX + 1) * (gridY + 1)
  {
    if 0 <= gridX && 0 <= gridY {
      RowsAt(gridX, gridY, SetMin(gridX, gridY) + 1);
    }
  }

  /**
    The visiting order in closed form: visit k has outer counter k / m and
    inner counter k % m, where m is the length of one pass of the inner loop.
  */
  lemma TraversalIndex(gridX: int, gridY: int, k: int)
    requires 0 <= k < |Traversal(gridX, gridY)|
    ensures var m := SetMax(gridX, gridY) + 1;
      0 <= gridX && 0 <= gridY && 0 <= k < (SetMin(gridX, gridY) + 1) * m &&
      Traversal(gridX, gridY)[k] == Visit(gridX, gridY, k / m, k % m)
  {
    RowsAt(gridX, gridY, SetMin(gridX, gridY) + 1);
  }

  /** Outer counter i and inner counter j are visited at flat index i * m + j. */
  lemma TraversalAt(gridX: int, gridY: int, i: int, j: int)
    requires 0 <= gridX && 0 <= gridY
    requires 0 <= i <= SetMin(gridX, gridY) && 0 <= j <= SetMax(gridX, gridY)
    ensures var m := SetMax(gridX, gridY) + 1;
      i * m + j < |Traversal(gridX, gridY)| && Traversal(gridX, gridY)[i * m + j] == Visit(gridX, gridY, i, j)
  {
    var m := SetMax(gridX, gridY) + 1;
    RowsAt(gridX, gridY, SetMin(gridX, gridY) + 1);
    IndexBound(i, j, m, SetMin(gridX, gridY) + 1);
    DivModIndex(i, j, m);
  }

  /**
    The outer loop runs over the smaller dimension: by x when there are
    no more columns than rows, by y otherwise.
  */
  lemma TraversalOrder(gridX: int, gridY: int, k: int)
    requires 0 <= k < |Traversal(gridX, gridY)|
    ensures gridX <= gridY ==> Traversal(gridX, gridY)[k] == (k / (gridY + 1), k % (gridY + 1))
    ensures gridY < gridX ==> Traversal(gridX, gridY)[k] == (k % (gridX + 1), k / (gridX + 1))
  {
    TraversalIndex(gridX, gridY, k);
  }

  /** Every visit is an intersection of the grid. */
  lemma TraversalInGrid(gridX: int, gridY: int, k: int)
    requires 0 <= k < |Traversal(gridX, gridY)|
    ensures InGrid(gridX, gridY, Traversal(gridX, gridY)[k])
  {
    TraversalIndex(gridX, gridY, k);
    QuotientBound(k, SetMax(gridX, gridY) + 1, SetMin(gridX, gridY) + 1);
  }

  /** Every intersection of the grid is visited. */
  lemma TraversalCovers(gridX: int, gridY: int, v: (int, int))
    requires InGrid(gridX, gridY, v)
    ensures v in Traversal(gridX, gridY)
  {
    var (i, j) := if gridX > gridY then (v.1, v.0) else (v.0, v.1);
    assert Visit(gridX, gridY, i, j) == v;
    TraversalAt(gridX, gridY, i, j);
    var k := i * (SetMax(gridX, gridY) + 1) + j;
    assert Traversal(gridX, gridY)[k] == v;
  }

  /** No intersection is visited twice. */
  lemma TraversalDistinct(gridX: int, gridY: int, k: int, k': int)
    requires 0 <= k < k' < |Traversal(gridX, gridY)|
    ensures Traversal(gridX, gridY)[k] != Traversal(gridX, gridY)[k']
  {
    TraversalIndex(gridX, gridY, k);
    TraversalIndex(gridX, gridY, k');
    FlatIndexInjective(k, k', SetMax(gridX, gridY) + 1);
  }

  /** Visits happen exactly at the grid's intersections, each one once. */
  lemma TraversalExactlyOnce(gridX: int, gridY: int)
    ensures forall v :: v in Traversal(gridX, gridY) <==> InGrid(gridX, gridY, v)
    ensures forall k, k' :: 0 <= k < k' < |Traversal(gridX, gridY)| ==>
              Traversal(gridX, gridY)[k] != Traversal(gridX, gridY)[k']
  {
    var vs := Traversal(gridX, gridY);
    forall v | v in vs ensures InGrid(gridX, gridY, v) {
      var k :| 0 <= k < |vs| && vs[k] == v;
      TraversalInGrid(gridX, gridY, k);
    }
    forall v | InGrid(gridX, gridY, v) ensures v in vs {
      TraversalCovers(gridX, gridY, v);
    }
    forall k, k' | 0 <= k < k' < |vs| ensures vs[k] != vs[k'] {
      TraversalDistinct(gridX, gridY, k, k');
    }
  }

  /** One more pass of the inner loop extends its visits by the visit at the next inner counter. */
  lemma RowStep(gridX: int, gridY: int, i: int, n: nat, vs: seq<(int, int)>, x: int, y: int)
    requires vs == Row(gridX, gridY, i, n) && (x, y) == Visit(gridX, gridY, i, n)
    ensures vs + [(x, y)] == Row(gridX, gridY, i, n + 1)
  {
  }

  /** When the outer loop stops, its passes are the whole traversal. */
  lemma TraversalIsRows(gridX: int, gridY: int, n: nat)
    requires n == if SetMin(gridX, gridY) < 0 then 0 else SetMin(gridX, gridY) + 1
    ensures Traversal(gridX, gridY) == Rows(gridX, gridY, n)
  {
  }

  /** One more full pass extends the visits of the first n passes to those of the first n + 1. */
  lemma RowsStep(gridX: int, gridY: int, n: nat, vs: seq<(int, int)>, row: seq<(int, int)>)
    requires vs == Rows(gridX, gridY, n) && row == Row(gridX, gridY, n, SetMax(gridX, gridY) + 1)
    ensures vs + row == Rows(gridX, gridY, n + 1)
  {
  }

  // ---------------------------------------------------------------------
  // Draw calls of drawGridRef

  /** Font colour and face, set up once before the loops when labels are drawn. */
  function TextSetup(gridText: bool): (ops: seq<DrawOp>)
    ensures |ops| == if gridText then 2 else 0
  {
    if gridText then [SetRGBA255(0, 0, 0, 255), SetFontFace(14.0)] else []
  }

  /** Draw calls per visit: one per enabled flag. */
  function PerVisit(gridText: bool, gridImage: bool): (n: nat)
    ensures n <= 2 && (n == 0 <==> !gridText && !gridImage)
  {
    (if gridText then 1 else 0) + (if gridImage then 1 else 0)
  }

  /**
    The draw calls for one visit at placement p: the image anchored at p,
    then the label five pixels higher with the same anchors, each only
    when its flag is set.
  */
  function PlacedOps(p: Placement, v: (int, int), gridText: bool, gridImage: bool): (ops: seq<DrawOp>)
    ensures |ops| == PerVisit(gridText, gridImage)
  {
    (if gridImage then [Image(p.px, p.py, p.ax, p.ay)] else [])
    + (if gridText then [Text(Label(v.0, v.1), p.px as real, p.py as real - 5.0, p.ax, p.ay)] else [])
  }

  /** The draw calls for one visit, placed by setGridPos. */
  function VisitOps(g: GridGeometry, v: (int, int), gridText: bool, gridImage: bool): (ops: seq<DrawOp>)
    ensures |ops| == PerVisit(gridText, gridImage)
  {
    PlacedOps(SetGridPos(g, v.0, v.1), v, gridText, gridImage)
  }

  /** The draw calls for a sequence of visits, in visiting order. */
  function RefOps(g: GridGeometry, vs: seq<(int, int)>, gridText: bool, gridImage: bool): (ops: seq<DrawOp>)
  {
    if vs == [] then []
    else RefOps(g, vs[..|vs| - 1], gridText, gridImage) + VisitOps(g, vs[|vs| - 1], gridText, gridImage)
  }

  /** Each visit issues PerVisit draw calls. */
  lemma {:induction false} RefOpsLength(g: GridGeometry, vs: seq<(int, int)>, gridText: bool, gridImage: bool)
    ensures |RefOps(g, vs, gridText, gridImage)| == |vs| * PerVisit(gridText, gridImage)
  {
    if vs != [] {
      RefOpsLength(g, vs[..|vs| - 1], gridText, gridImage);
      MulSucc(|vs| - 1, PerVisit(gridText, gridImage));
    }
  }

  /** Visit k owns the k-th block of PerVisit calls. */
  lemma RefOpsSnoc(g: GridGeometry, vs: seq<(int, int)>, v: (int, int), gridText: bool, gridImage: bool)
    ensures RefOps(g, vs + [v], gridText, gridImage) == RefOps(g, vs, gridText, gridImage) + VisitOps(g, v, gridText, gridImage)
  {
    assert (vs + [v])[..|vs|] == vs;
  }

  /**
    Appending the image call (when enabled) and then the text call (when
    enabled) for visit v extends the draw calls of vs to those of vs + [v].
  */
  lemma RefOpsStep(g: GridGeometry, vs: seq<(int, int)>, x: int, y: int, p: Placement, gridText: bool, gridImage: bool,
                   before: seq<DrawOp>, mid: seq<DrawOp>, after: seq<DrawOp>)
    requires before == RefOps(g, vs, gridText, gridImage)
    requires p == SetGridPos(g, x, y)
    requires mid == if gridImage then before + [Image(p.px, p.py, p.ax, p.ay)] else before
    requires after == if gridText then mid + [Text(Label(x, y), p.px as real, p.py as real - 5.0, p.ax, p.ay)] else mid
    ensures after == RefOps(g, vs + [(x, y)], gridText, gridImage)
  {
    RefOpsSnoc(g, vs, (x, y), gridText, gridImage);
  }

  /** The draw calls of two runs of visits are those of the first run followed by those of the second. */
  lemma {:induction false} RefOpsConcat(g: GridGeometry, a: seq<(int, int)>, b: seq<(int, int)>, gridText: bool, gridImage: bool)
    ensures RefOps(g, a + b, gridText, gridImage) == RefOps(g, a, gridText, gridImage) + RefOps(g, b, gridText, gridImage)
    decreases |b|
  {
    if b == [] {
      assert a + b == a;
    } else {
      var b' := b[..|b| - 1];
      assert (a + b)[..|a + b| - 1] == a + b';
      assert (a + b)[|a + b| - 1] == b[|b| - 1];
      RefOpsConcat(g, a, b', gridText, gridImage);
    }
  }

  lemma RefOpsExtend(g: GridGeometry, setup: seq<DrawOp>, vs: seq<(int, int)>, ws: seq<(int, int)>, gridText: bool, gridImage: bool,
                     before: seq<DrawOp>, more: seq<DrawOp>)
    requires before == setup + RefOps(g, vs, gridText, gridImage)
    requires more == RefOps(g, ws, gridText, gridImage)
    ensures before + more == setup + RefOps(g, vs + ws, gridText, gridImage)
  {
    RefOpsConcat(g, vs, ws, gridText, gridImage);
  }

  /**
    The draw calls of visit k are exactly VisitOps of it, between the calls
    of the visits before it and those of the visits after it.
  */
  lemma RefOpsSplit(g: GridGeometry, vs: seq<(int, int)>, gridText: bool, gridImage: bool, k: int)
    requires 0 <= k < |vs|
    ensures RefOps(g, vs, gridText, gridImage)
      == RefOps(g, vs[..k], gridText, gridImage) + VisitOps(g, vs[k], gridText, gridImage) + RefOps(g, vs[k + 1..], gridText, gridImage)
  {
    assert vs == vs[..k] + [vs[k]] + vs[k + 1..];
    RefOpsConcat(g, vs[..k] + [vs[k]], vs[k + 1..], gridText, gridImage);
    RefOpsConcat(g, vs[..k], [vs[k]], gridText, gridImage);
    assert [vs[k]][..0] == [];
  }

  /**
    Visit k owns the k-th block of PerVisit draw calls, and that block is
    exactly the calls for visit k.
  */
  lemma RefOpsBlock(g: GridGeometry, vs: seq<(int, int)>, gridText: bool, gridImage: bool, k: int)
    requires 0 <= k < |vs|
    ensures var n, ops := PerVisit(gridText, gridImage), RefOps(g, vs, gridText, gridImage);
      0 <= k * n <= (k + 1) * n <= |ops| && ops[k * n .. (k + 1) * n] == VisitOps(g, vs[k], gridText, gridImage)
  {
    var n := PerVisit(gridText, gridImage);
    var front, here, back := RefOps(g, vs[..k], gridText, gridImage), VisitOps(g, vs[k], gridText, gridImage), RefOps(g, vs[k + 1..], gridText, gridImage);
    RefOpsSplit(g, vs, gridText, gridImage, k);
    RefOpsLength(g, vs[..k], gridText, gridImage);
    RefOpsLength(g, vs, gridText, gridImage);
    MulSucc(k, n);
    MulMonotone(n, 0, k);
    MulMonotone(n, k + 1, |vs|);
    assert (front + here + back)[|front| .. |front| + |here|] == here;
  }

  /** Only enabled kinds of draw call are issued: images when gridImage, labels when gridText. */
  lemma {:induction false} RefOpsKinds(g: GridGeometry, vs: seq<(int, int)>, gridText: bool, gridImage: bool)
    ensures forall op :: op in RefOps(g, vs, gridText, gridImage) ==> (op.Image? && gridImage) || (op.Text? && gridText)
  {
    if vs != [] {
      RefOpsKinds(g, vs[..|vs| - 1], gridText, gridImage);
    }
  }

  /**
    The draw calls at an intersection of a grid with at least one cell
    each way, in closed form: the image at the placement the
    setGridPos formulas give, the label five pixels above it, both with
    the edge or interior anchors.
  */
  lemma VisitOpsAt(g: GridGeometry, v: (int, int), gridText: bool, gridImage: bool)
    requires g.gridX >= 1 && g.gridY >= 1 && InGrid(g.gridX, g.gridY, v)
    ensures var px := Trunc(g.X) + Trunc(g.offsetX) * v.0;
      var py := Trunc(g.Y) - Trunc(g.offsetY) * v.1;
      var ax := if v.0 == 0 then 0.0 else if v.0 == g.gridX then 1.0 else 0.5;
      var ay := if v.1 == 0 then 1.0 else if v.1 == g.gridY then 0.0 else 0.5;
      VisitOps(g, v, gridText, gridImage)
        == (if gridImage then [Image(px, py, ax, ay)] else [])
           + (if gridText then [Text(Label(v.0, v.1), px as real, py as real - 5.0, ax, ay)] else [])
  {
    HorizontalPlacement(g, v.0, v.1);
    VerticalPlacement(g, v.0, v.1);
  }

  /**
    One pass of the inner loop of drawGridRef: outer counter `smallGrid`
    fixed, inner counter running from 0 to setMax. Returns the
    intersections visited and the draw calls issued for them.
  */
  method Sweep(g: GridGeometry, smallGrid: int, setMax: int, gridText: bool, gridImage: bool)
    returns (visits: seq<(int, int)>, ops: seq<DrawOp>)
    requires setMax == SetMax(g.gridX, g.gridY)
    ensures visits == Row(g.gridX, g.gridY, smallGrid, setMax + 1)
    ensures ops == RefOps(g, visits, gridText, gridImage)
  {
    visits, ops := [], [];
    var setX, setY := 0, 0;
    var largeGrid := 0;
    var max := 0;
    while max <= setMax
      invariant 0 <= max && (0 <= setMax ==> max <= setMax + 1)
      invariant setMax < 0 ==> max == 0
      invariant largeGrid == max
      invariant visits == Row(g.gridX, g.gridY, smallGrid, max)
      invariant ops == RefOps(g, visits, gridText, gridImage)
    {
      if g.gridX > g.gridY {
        setX := largeGrid;
        setY := smallGrid;
      } else {
        setX := smallGrid;
        setY := largeGrid;
      }
      ghost var before := ops;
      var p := SetGridPos(g, setX, setY);
      if gridImage {
        ops := ops + [Image(p.px, p.py, p.ax, p.ay)];
      }
      ghost var mid := ops;
      if gridText {
        ops := ops + [Text(Label(setX, setY), p.px as real, p.py as real - 5.0, p.ax, p.ay)];
      }
      RefOpsStep(g, visits, setX, setY, p, gridText, gridImage, before, mid, ops);
      RowStep(g.gridX, g.gridY, smallGrid, max, visits, setX, setY);
      visits := visits + [(setX, setY)];
      largeGrid := largeGrid + 1;
      max := max + 1;
    }
  }

  /**
    Places grid references at every intersection (x, y) with 0 <= x <=
    gridX and 0 <= y <= gridY. The outer loop runs over the smaller
    dimension and the inner over the larger; `visits` lists the
    intersections in the order setGridPos is called on them.
  */
  method DrawGridRef(c: Canvas, gridText: bool, gridImage: bool) returns (visits: seq<(int, int)>, ops: seq<DrawOp>)
    ensures visits == Traversal(c.gridX, c.gridY)
    ensures ops == TextSetup(gridText) + RefOps(c.Geometry(), visits, gridText, gridImage)
  {
    ops := TextSetup(gridText);
    var g := c.Geometry();
    var smallGrid := 0;
    var setMax, setMin;
    if c.gridX > c.gridY {
      setMax := c.gridX;
      setMin := c.gridY;
    } else {
      setMax := c.gridY;
      setMin := c.gridX;
    }
    visits := [];
    var min := 0;
    while min <= setMin
      invariant 0 <= min && (0 <= setMin ==> min <= setMin + 1)
      invariant setMin < 0 ==> min == 0
      invariant smallGrid == min
      invariant visits == Rows(g.gridX, g.gridY, min)
      invariant ops == TextSetup(gridText) + RefOps(g, visits, gridText, gridImage)
    {
      var rowVisits, rowOps := Sweep(g, smallGrid, setMax, gridText, gridImage);
      RowsStep(g.gridX, g.gridY, min, visits, rowVisits);
      RefOpsExtend(g, TextSetup(gridText), visits, rowVisits, gridText, gridImage, ops, rowOps);
      visits := visits + rowVisits;
      ops := ops + rowOps;
      smallGrid := smallGrid + 1;
      min := min + 1;
    }
    TraversalIsRows(g.gridX, g.gridY, min);
  }

  // ---------------------------------------------------------------------
  // Guide lines of drawGridLines

  /** The value of a shift accumulator after n loop passes that each add `step`. */
  function Shift(n: nat, step: real): (s: real)
    ensures 0.0 <= step ==> 0.0 <= s
  {
    if n == 0 then 0.0 else Shift(n - 1, step) + step
  }

  /** Repeated addition of the cell size is multiplication by the pass count. */
  lemma {:induction false} ShiftIsProduct(n: nat, step: real)
    ensures Shift(n, step) == n as real * step
  {
    if n > 0 {
      ShiftIsProduct(n - 1, step);
      assert (n - 1) as real * step + step == n as real * step;
    }
  }

  /** The two horizontal segments `shift` above and below the centre, spanning the padded width. */
  function HorizontalPair(p: real, w: real, h: real, shift: real): (ls: seq<DrawOp>)
    ensures |ls| == 2 && ls[0].Line? && ls[1].Line?
    ensures ls[0].y1 == ls[0].y2 && ls[1].y1 == ls[1].y2 && ls[0].y1 + ls[1].y1 == h
    ensures ls[0].x1 == ls[1].x1 == p && ls[0].x2 == ls[1].x2 == w - p
  {
    [Line(p, h / 2.0 + shift, w - p, h / 2.0 + shift), Line(p, h / 2.0 - shift, w - p, h / 2.0 - shift)]
  }

  /** The two vertical segments `shift` right and left of the centre, spanning the padded height. */
  function VerticalPair(p: real, w: real, h: real, shift: real): (ls: seq<DrawOp>)
    ensures |ls| == 2 && ls[0].Line? && ls[1].Line?
    ensures ls[0].x1 == ls[0].x2 && ls[1].x1 == ls[1].x2 && ls[0].x1 + ls[1].x1 == w
    ensures ls[0].y1 == ls[1].y1 == p && ls[0].y2 == ls[1].y2 == h - p
  {
    [Line(w / 2.0 + shift, p, w / 2.0 + shift, h - p), Line(w / 2.0 - shift, p, w / 2.0 - shift, h - p)]
  }

  /** The segments of the first n passes of the horizontal loop, cells sh apart. */
  function HorizontalLines(p: real, w: real, h: real, sh: real, n: nat): (ls: seq<DrawOp>)
    ensures |ls| == 2 * n
  {
    if n == 0 then [] else HorizontalLines(p, w, h, sh, n - 1) + HorizontalPair(p, w, h, Shift(n - 1, sh))
  }

  /** The segments of the first n passes of the vertical loop, cells sw apart. */
  function VerticalLines(p: real, w: real, h: real, sw: real, n: nat): (ls: seq<DrawOp>)
    ensures |ls| == 2 * n
  {
    if n == 0 then [] else VerticalLines(p, w, h, sw, n - 1) + VerticalPair(p, w, h, Shift(n - 1, sw))
  }

  /** Pair k of the horizontal lines sits k cells above and below the centre and spans the padded width. */
  lemma {:induction false} HorizontalLinesAt(p: real, w: real, h: real, sh: real, n: nat, k: nat)
    requires k < n
    ensures HorizontalLines(p, w, h, sh, n)[2 * k] == Line(p, h / 2.0 + k as real * sh, w - p, h / 2.0 + k as real * sh)
    ensures HorizontalLines(p, w, h, sh, n)[2 * k + 1] == Line(p, h / 2.0 - k as real * sh, w - p, h / 2.0 - k as real * sh)
  {
    if k < n - 1 {
      HorizontalLinesAt(p, w, h, sh, n - 1, k);
    } else {
      ShiftIsProduct(k, sh);
    }
  }

  /** Pair k of the vertical lines sits k cells right and left of the centre and spans the padded height. */
  lemma {:induction false} VerticalLinesAt(p: real, w: real, h: real, sw: real, n: nat, k: nat)
    requires k < n
    ensures VerticalLines(p, w, h, sw, n)[2 * k] == Line(w / 2.0 + k as real * sw, p, w / 2.0 + k as real * sw, h - p)
    ensures VerticalLines(p, w, h, sw, n)[2 * k + 1] == Line(w / 2.0 - k as real * sw, p, w / 2.0 - k as real * sw, h - p)
  {
    if k < n - 1 {
      VerticalLinesAt(p, w, h, sw, n - 1, k);
    } else {
      ShiftIsProduct(k, sw);
    }
  }

  /** Thin, faint stroke settings used for the guide lines. */
  function GuideStyle(): (ops: seq<DrawOp>)
    ensures |ops| == 2 && ops[0].SetLineWidth? && ops[1].SetRGBA255?
    ensures ops[0].lineWidth < 3.0 && ops[1].a == 30
  {
    [SetLineWidth(1.0), SetRGBA255(0, 0, 0, 30)]
  }

  /**
    Draws gridY/2 + 1 pairs of horizontal and gridX/2 + 1 pairs of vertical
    guide lines symmetric about the centre, then the centre cross and the
    padding rectangle in a heavier red stroke. The canvas height is taken
    from its width, as in the program.
  */
  method DrawGridLines(c: Canvas) returns (ops: seq<DrawOp>)
    requires c.gridX >= 1 && c.gridY >= 1
    ensures var w, p := c.width as real, c.padding;
      var sw, sh := (w - p - p) / c.gridX as real, (w - p - p) / c.gridY as real;
      ops == GuideStyle() + HorizontalLines(p, w, w, sh, c.gridY / 2 + 1) + [Stroke]
        + GuideStyle() + VerticalLines(p, w, w, sw, c.gridX / 2 + 1) + [Stroke]
        + [SetLineWidth(3.0), SetRGBA255(230, 0, 0, 30)]
        + [Line(w / 2.0, p, w / 2.0, w - p), Line(p, w / 2.0, w - p, w / 2.0)]
        + [Rectangle(p, p, w - p - p, w - p - p), Stroke]
  {
    var w := c.width as real;
    var h := c.width as real;
    var p := c.padding;
    var vLines, hLines := c.gridX, c.gridY;
    var sw := (w - p - p) / vLines as real;
    var sh := (h - p - p) / hLines as real;

    // Horizontal grid lines
    ops := GuideStyle();
    var shiftW, shiftH := 0.0, 0.0;
    var x := 0;
    while x <= hLines / 2
      invariant 0 <= x <= hLines / 2 + 1
      invariant shiftH == Shift(x, sh)
      invariant ops == GuideStyle() + HorizontalLines(p, w, h, sh, x)
    {
      ops := ops + [Line(p, h / 2.0 + shiftH, w - p, h / 2.0 + shiftH), Line(p, h / 2.0 - shiftH, w - p, h / 2.0 - shiftH)];
      shiftW := shiftW + sw;
      shiftH := shiftH + sh;
      x := x + 1;
    }
    ops := ops + [Stroke];

    // Vertical grid lines
    ghost var horizontal := ops;
    ops := ops + GuideStyle();
    shiftW, shiftH := 0.0, 0.0;
    x := 0;
    while x <= vLines / 2
      invariant 0 <= x <= vLines / 2 + 1
      invariant shiftW == Shift(x, sw)
      invariant ops == horizontal + GuideStyle() + VerticalLines(p, w, h, sw, x)
    {
      ops := ops + [Line(w / 2.0 + shiftW, p, w / 2.0 + shiftW, h - p), Line(w / 2.0 - shiftW, p, w / 2.0 - shiftW, h - p)];
      shiftW := shiftW + sw;
      shiftH := shiftH + sh;
      x := x + 1;
    }
    ops := ops + [Stroke];

    // Outside rectangle and centre cross
    ops := ops + [SetLineWidth(3.0), SetRGBA255(230, 0, 0, 30)];
    ops := ops + [Line(w / 2.0, p, w / 2.0, h - p), Line(p, h / 2.0, w - p, h / 2.0)];
    ops := ops + [Rectangle(p, p, w - p - p, h - p - p), Stroke];
  }
}
