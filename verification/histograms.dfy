/** The binning and the multi-layer histogram of src/histogram.rs.

    Coordinates are exact reals where the program uses a float type, and the
    counters are unbounded naturals where the program uses `u32`. A histogram
    holds one counter grid per layer; a grid is flat and row-major, with the y
    cell as the outer index and the x cell as the inner one. */
module Histograms {
  import opened Wrappers

  /** The program's `u16`, the type of a cell count. */
  type u16 = n: nat | n < 0x1_0000

  /** One axis: `num` cells of width `1 / scale`, the first one starting at `min`. */
  datatype Binning = Binning(scale: real, min: real, num: u16)

  /** A binning whose cell centres can be computed: its scale is nonzero
      whenever it has cells. `New` only builds such binnings. */
  predicate ValidBinning(b: Binning) {
    b.num > 0 ==> b.scale != 0.0
  }

  /** Where `v` lies on the axis, measured in cells from `min`. */
  function Offset(b: Binning, v: real): real {
    (v - b.min) * b.scale
  }

  /** `Binning::bin`: the cell that holds `v`, or `None` when `v` lies off the
      axis. Out-of-range values are dropped, never clamped. */
  function Bin(b: Binning, v: real): (r: Option<nat>)
    ensures r.Some? ==> r.value < b.num
    ensures r.Some? ==> r.value as real <= Offset(b, v) < r.value as real + 1.0
    ensures r.None? <==> Offset(b, v) < 0.0 || b.num as real <= Offset(b, v)
  {
    var c := Offset(b, v).Floor;
    if c < 0 || c >= b.num then None else Some(c)
  }

  /** `Binning::iter`: the centre of every cell, first cell first. Centre i
      is the midpoint of cell i, half a cell past its start. */
  function AxisCenters(b: Binning): (r: seq<real>)
    requires ValidBinning(b)
    ensures |r| == b.num
    ensures forall i :: 0 <= i < |r| ==> Offset(b, r[i]) == i as real + 0.5
    ensures forall i :: 0 <= i < |r| ==> Bin(b, r[i]) == Some(i)
    ensures b.scale > 0.0 ==> forall i, j :: 0 <= i < j < |r| ==> r[i] < r[j]
  {
    var r := seq(b.num, i requires 0 <= i < b.num => b.min + (i as real + 0.5) / b.scale);
    CentersBinToTheirCells(b, r);
    CentersIncrease(b, r);
    r
  }

  lemma CentersBinToTheirCells(b: Binning, r: seq<real>)
    requires ValidBinning(b) && |r| == b.num
    requires forall i :: 0 <= i < |r| ==> r[i] == b.min + (i as real + 0.5) / b.scale
    ensures forall i :: 0 <= i < |r| ==> Offset(b, r[i]) == i as real + 0.5
    ensures forall i :: 0 <= i < |r| ==> Bin(b, r[i]) == Some(i)
  {
    forall i | 0 <= i < |r|
      ensures Offset(b, r[i]) == i as real + 0.5 && Bin(b, r[i]) == Some(i)
    {
      var half := i as real + 0.5;
      assert Offset(b, r[i]) == half / b.scale * b.scale == half;
      assert half.Floor == i;
    }
  }

  lemma CentersIncrease(b: Binning, r: seq<real>)
    requires ValidBinning(b) && |r| == b.num
    requires forall i :: 0 <= i < |r| ==> r[i] == b.min + (i as real + 0.5) / b.scale
    ensures b.scale > 0.0 ==> forall i, j :: 0 <= i < j < |r| ==> r[i] < r[j]
  {
    if b.scale > 0.0 {
      forall i, j | 0 <= i < j < |r|
        ensures r[i] < r[j]
      {
        var d := (j - i) as real / b.scale;
        assert d > 0.0;
        assert (j as real + 0.5) / b.scale == (i as real + 0.5) / b.scale + d;
      }
    }
  }

  /** A histogram: two axes and one flat counter grid per layer. */
  datatype Histogram = Histogram(xaxis: Binning, yaxis: Binning, bins: seq<seq<nat>>)

  /** The number of cells of one grid. */
  function CellCount(h: Histogram): nat {
    h.xaxis.num * h.yaxis.num
  }

  /** Both axes can place centres, and every layer has one counter per cell. */
  predicate Valid(h: Histogram) {
    && ValidBinning(h.xaxis)
    && ValidBinning(h.yaxis)
    && forall i :: 0 <= i < |h.bins| ==> |h.bins[i]| == CellCount(h)
  }

  /** `Histogram::new`: axes spanning [xmin, xmax) and [ymin, ymax) with
      `xnum` and `ynum` cells, over caller-provided counter grids. */
  function New(xmin: real, xmax: real, xnum: u16, ymin: real, ymax: real, ynum: u16,
               bins: seq<seq<nat>>): (h: Histogram)
    requires xmax != xmin && ymax != ymin
    ensures h.xaxis.num == xnum && h.yaxis.num == ynum && h.bins == bins
    ensures Offset(h.xaxis, xmin) == 0.0 && Offset(h.xaxis, xmax) == xnum as real
    ensures Offset(h.yaxis, ymin) == 0.0 && Offset(h.yaxis, ymax) == ynum as real
    ensures ValidBinning(h.xaxis) && ValidBinning(h.yaxis)
  {
    var xaxis := Binning(xnum as real / (xmax - xmin), xmin, xnum);
    var yaxis := Binning(ynum as real / (ymax - ymin), ymin, ynum);
    Histogram(xaxis, yaxis, bins)
  }

  /** `Histogram::index`: the flat, row-major index of cell (x, y). Inside
      the grid it is a bijection onto [0, CellCount). */
  function Index(h: Histogram, x: nat, y: nat): (r: nat)
    ensures x < h.xaxis.num && y < h.yaxis.num ==>
              && r < CellCount(h)
              && r % h.xaxis.num == x
              && r / h.xaxis.num == y
  {
    GridCoordinates(x, y, h.xaxis.num, h.yaxis.num);
    x + y * h.xaxis.num
  }

  /** The flat index of the cell holding (x, y), when both coordinates bin. */
  function Cell(h: Histogram, x: real, y: real): (r: Option<nat>)
    ensures r.Some? <==> Bin(h.xaxis, x).Some? && Bin(h.yaxis, y).Some?
    ensures r.Some? ==> r.value < CellCount(h)
    ensures r.Some? ==> Bin(h.xaxis, x) == Some(r.value % h.xaxis.num)
    ensures r.Some? ==> Bin(h.yaxis, y) == Some(r.value / h.xaxis.num)
  {
    match (Bin(h.xaxis, x), Bin(h.yaxis, y))
    case (Some(cx), Some(cy)) => Some(Index(h, cx, cy))
    case _ => None
  }

  /** `Histogram::fill`: count the point (x, y) once in layer `i`. A point off
      the grid changes nothing; otherwise exactly one counter of layer `i`
      goes up by one. */
  function Fill(h: Histogram, i: nat, x: real, y: real): (r: Histogram)
    requires Valid(h) && i < |h.bins|
    ensures r.xaxis == h.xaxis && r.yaxis == h.yaxis && |r.bins| == |h.bins| && Valid(r)
    ensures Cell(h, x, y).None? ==> r == h
  {
    match Cell(h, x, y)
    case None => h
    case Some(idx) => h.(bins := h.bins[i := h.bins[i][idx := h.bins[i][idx] + 1]])
  }

  /** What `Fill` does to counter k of layer j: it goes up by one exactly
      when j is the filled layer and k the cell of the point. */
  lemma FillCounts(h: Histogram, i: nat, x: real, y: real, j: nat, k: nat)
    requires Valid(h) && i < |h.bins| && j < |h.bins| && k < CellCount(h)
    ensures Fill(h, i, x, y).bins[j][k] == h.bins[j][k] + (if j == i && Cell(h, x, y) == Some(k) then 1 else 0)
  {
  }

  /** One row of centres: every x centre paired with the same y. */
  function Row(xs: seq<real>, y: real): (r: seq<(real, real)>)
    ensures |r| == |xs|
    ensures forall i :: 0 <= i < |xs| ==> r[i] == (xs[i], y)
  {
    seq(|xs|, i requires 0 <= i < |xs| => (xs[i], y))
  }

  /** The rows for every y centre in turn: the `flat_map` of `centers`. */
  function Rows(xs: seq<real>, ys: seq<real>): (r: seq<(real, real)>)
    ensures |r| == |xs| * |ys|
  {
    if |ys| == 0 then [] else Row(xs, ys[0]) + Rows(xs, ys[1..])
  }

  lemma {:induction false} RowsIndex(xs: seq<real>, ys: seq<real>, i: nat, j: nat)
    requires i < |xs| && j < |ys|
    ensures i + j * |xs| < |Rows(xs, ys)|
    ensures Rows(xs, ys)[i + j * |xs|] == (xs[i], ys[j])
  {
    GridCoordinates(i, j, |xs|, |ys|);
    if j > 0 {
      RowsIndex(xs, ys[1..], i, j - 1);
      assert i + j * |xs| == |xs| + (i + (j - 1) * |xs|);
    }
  }

  /** `Histogram::centers`: every pixel centre, y outer and x inner. The
      centre of cell (x, y) sits at flat position `Index(h, x, y)`, the same
      position `Fill` counts into. */
  function Centers(h: Histogram): (r: seq<(real, real)>)
    requires ValidBinning(h.xaxis) && ValidBinning(h.yaxis)
    ensures |r| == CellCount(h)
    ensures forall x, y :: 0 <= x < h.xaxis.num && 0 <= y < h.yaxis.num ==>
              r[Index(h, x, y)] == (AxisCenters(h.xaxis)[x], AxisCenters(h.yaxis)[y])
  {
    var xs := AxisCenters(h.xaxis);
    var ys := AxisCenters(h.yaxis);
    CentersAtIndex(h, xs, ys);
    Rows(xs, ys)
  }

  lemma CentersAtIndex(h: Histogram, xs: seq<real>, ys: seq<real>)
    requires |xs| == h.xaxis.num && |ys| == h.yaxis.num
    ensures forall x, y :: 0 <= x < h.xaxis.num && 0 <= y < h.yaxis.num ==>
              Index(h, x, y) < |Rows(xs, ys)| && Rows(xs, ys)[Index(h, x, y)] == (xs[x], ys[y])
  {
    forall x, y | 0 <= x < h.xaxis.num && 0 <= y < h.yaxis.num
      ensures Index(h, x, y) < |Rows(xs, ys)| && Rows(xs, ys)[Index(h, x, y)] == (xs[x], ys[y])
    {
      RowsIndex(xs, ys, x, y);
    }
  }

  /** Centre enumeration and indexing agree: the k-th centre bins to cell k. */
  lemma CenterLandsInOwnCell(h: Histogram, k: nat)
    requires ValidBinning(h.xaxis) && ValidBinning(h.yaxis)
    requires k < CellCount(h)
    ensures Cell(h, Centers(h)[k].0, Centers(h)[k].1) == Some(k)
  {
    var n := h.xaxis.num;
    var x, y := k % n, k / n;
    SplitIndex(k, n, h.yaxis.num);
    assert k == Index(h, x, y);
  }

  /** Filling layer `i` with the k-th centre counts exactly cell k of layer
      `i`, and nothing else. */
  lemma FillAtCenter(h: Histogram, i: nat, k: nat)
    requires Valid(h) && i < |h.bins| && k < CellCount(h)
    ensures var r := Fill(h, i, Centers(h)[k].0, Centers(h)[k].1);
            && r.bins[i][k] == h.bins[i][k] + 1
            && forall j, l :: 0 <= j < |h.bins| && 0 <= l < CellCount(h) && (j, l) != (i, k) ==>
                 r.bins[j][l] == h.bins[j][l]
  {
    CenterLandsInOwnCell(h, k);
    forall j, l | 0 <= j < |h.bins| && 0 <= l < CellCount(h)
      ensures Fill(h, i, Centers(h)[k].0, Centers(h)[k].1).bins[j][l]
              == h.bins[j][l] + (if (j, l) == (i, k) then 1 else 0)
    {
      FillCounts(h, i, Centers(h)[k].0, Centers(h)[k].1, j, l);
    }
  }

  /** Two histograms over the same axes whose counters all agree are equal. */
  lemma SameCounts(a: Histogram, b: Histogram)
    requires a.xaxis == b.xaxis && a.yaxis == b.yaxis && |a.bins| == |b.bins|
    requires Valid(a) && Valid(b)
    requires forall j, k :: 0 <= j < |a.bins| && 0 <= k < CellCount(a) ==> a.bins[j][k] == b.bins[j][k]
    ensures a == b
  {
    forall j | 0 <= j < |a.bins|
      ensures a.bins[j] == b.bins[j]
    {
      assert forall k :: 0 <= k < |a.bins[j]| ==> a.bins[j][k] == b.bins[j][k];
    }
    assert a.bins == b.bins;
  }

  /** Increments commute: the order in which two points are filled, into the
      same layer or into different ones, does not change the result. */
  lemma FillCommutes(h: Histogram, i: nat, x: real, y: real, j: nat, x': real, y': real)
    requires Valid(h) && i < |h.bins| && j < |h.bins|
    ensures Fill(Fill(h, i, x, y), j, x', y') == Fill(Fill(h, j, x', y'), i, x, y)
  {
    var h1 := Fill(h, i, x, y);
    var h2 := Fill(h, j, x', y');
    CellReadsAxes(h1, h, x', y');
    CellReadsAxes(h2, h, x, y);
    var a, b := Fill(h1, j, x', y'), Fill(h2, i, x, y);
    forall l, k | 0 <= l < |h.bins| && 0 <= k < CellCount(h)
      ensures a.bins[l][k] == b.bins[l][k]
    {
      FillCounts(h, i, x, y, l, k);
      FillCounts(h, j, x', y', l, k);
      FillCounts(h1, j, x', y', l, k);
      FillCounts(h2, i, x, y, l, k);
    }
    SameCounts(a, b);
  }

  /** Which cell a point falls in depends only on the axes. */
  lemma CellReadsAxes(a: Histogram, b: Histogram, x: real, y: real)
    requires a.xaxis == b.xaxis && a.yaxis == b.yaxis
    ensures Cell(a, x, y) == Cell(b, x, y)
  {
  }

  /** `(x + y*n) % n == x` and `(x + y*n) / n == y` inside an n-by-m grid. */
  lemma GridCoordinates(x: nat, y: nat, n: nat, m: nat)
    ensures x < n && y < m ==> x + y * n < n * m && (x + y * n) % n == x && (x + y * n) / n == y
  {
    if x < n && y < m {
      assert y * n <= (m - 1) * n;
      DivModUnique(x + y * n, n, y, x);
    }
  }

  /** Every index below n*m splits into an in-grid pair (k % n, k / n). */
  lemma SplitIndex(k: nat, n: nat, m: nat)
    requires k < n * m
    ensures n > 0 && k % n < n && k / n < m && k == k % n + (k / n) * n
  {
  }

  lemma DivModUnique(a: nat, n: nat, q: nat, r: nat)
    requires r < n && a == q * n + r
    ensures a / n == q && a % n == r
  {
    var d: int := q - a / n;
    assert d * n == a % n - r;
    MultipleBounds(d, n);
  }

  lemma MultipleBounds(d: int, n: nat)
    requires n > 0
    ensures d >= 1 ==> d * n >= n
    ensures d <= -1 ==> d * n <= -(n as int)
  {
  }

  /** The unit tests of `Binning`: centres of a two-cell axis, and binning
      inside and beyond the axis. */
  lemma BinningExamples()
    ensures AxisCenters(Binning(2.0, 0.0, 2)) == [0.25, 0.75]
    ensures Bin(Binning(1.0, 0.0, 2), 0.1) == Some(0)
    ensures Bin(Binning(1.0, 0.0, 2), 5.0) == None
  {
    var c := AxisCenters(Binning(2.0, 0.0, 2));
    assert c[0] == 0.25 && c[1] == 0.75;
    assert (0.1 as real).Floor == 0;
  }

  /** The grid of the unit test of `Histogram`: 2 by 1 cells over [0,1] x [0,1]. */
  const UsageGrid := Histogram(Binning(2.0, 0.0, 2), Binning(1.0, 0.0, 1), [[0, 0]])

  /** The unit test of `Histogram`, part one: `New` builds the expected axes. */
  lemma UsageNew()
    ensures New(0.0, 1.0, 2, 0.0, 1.0, 1, [[0, 0]]) == UsageGrid
  {
  }

  /** Part two: its two centres, in order. */
  lemma UsageCenters()
    ensures Centers(UsageGrid) == [(0.25, 0.5), (0.75, 0.5)]
  {
    var h := UsageGrid;
    var xs := AxisCenters(h.xaxis);
    var ys := AxisCenters(h.yaxis);
    assert xs == [0.25, 0.75] by {
      assert xs[0] == 0.0 + 0.5 / 2.0;
      assert xs[1] == 0.0 + 1.5 / 2.0;
    }
    assert ys == [0.5] by {
      assert ys[0] == 0.0 + 0.5 / 1.0;
    }
    assert Rows(xs, ys) == Row(xs, 0.5) + Rows(xs, []);
  }

  /** Part three: a point off the grid changes nothing, and (0.51, 0.1)
      counts in cell 1 only. */
  lemma UsageFill()
    ensures Fill(UsageGrid, 0, -2.0, 3.0) == UsageGrid
    ensures Fill(UsageGrid, 0, 0.51, 0.1).bins == [[0, 1]]
  {
    var h := UsageGrid;
    assert Offset(h.xaxis, -2.0) < 0.0;
    assert Offset(h.xaxis, 0.51) == 1.02 && (1.02 as real).Floor == 1;
    assert Offset(h.yaxis, 0.1) == 0.1 && (0.1 as real).Floor == 0;
    assert Cell(h, 0.51, 0.1) == Some(1);
    var r := Fill(h, 0, 0.51, 0.1);
    assert r.bins[0] == [0, 1];
  }
}
