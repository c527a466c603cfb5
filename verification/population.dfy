/** Filling a cache: `populate_cache` of src/main.rs and `Cache::populate` of
    src/cache.rs.

    For every pixel centre c the program computes the orbit of c once,
    truncated to the largest threshold M of all layers. Each layer with
    threshold T whose orbit is shorter than T counts every point of the
    orbit in that layer's histogram. The model shows that this shared orbit
    gives every layer exactly the Buddhabrot of its own threshold, and that
    the order in which the centres are processed does not matter. */
module Population {
  import opened Wrappers
  import Histograms
  import opened Mandelbrot
  import opened Caches

  /** The largest threshold, 0 when there are no layers: the `max_iter`
      that both populate functions compute. */
  function MaxIterations(its: seq<nat>): (r: nat)
    ensures forall i :: 0 <= i < |its| ==> its[i] <= r
    ensures |its| == 0 ==> r == 0
    ensures |its| > 0 ==> exists i :: 0 <= i < |its| && its[i] == r
  {
    if |its| == 0 then 0
    else
      var m := MaxIterations(its[1..]);
      assert forall i :: 1 <= i < |its| ==> its[i] == its[1..][i - 1];
      if its[0] >= m then its[0] else m
  }

  /** The thresholds of the cache's layers, in layer order. */
  function Thresholds(c: Cache): (its: seq<nat>)
    ensures |its| == |c.layers|
    ensures forall i :: 0 <= i < |its| ==> its[i] == c.layers[i].iterations
  {
    CacheShape(c).iterations
  }

  /** An area whose sides have nonzero length, so that both axes have a
      finite scale. */
  predicate NonDegenerate(a: Area) {
    a.x.0 != a.x.1 && a.y.0 != a.y.1
  }

  /** The histogram that `populate_cache` builds over the cache: the area
      and dimensions as axes, the layers' counters as grids. */
  function Grid(c: Cache): (h: Histograms.Histogram)
    requires WellFormed(c) && NonDegenerate(c.area)
    ensures Histograms.Valid(h) && Histograms.CellCount(h) == Size(c.dimensions)
    ensures |h.bins| == |c.layers|
    ensures forall i :: 0 <= i < |c.layers| ==> h.bins[i] == c.layers[i].data
  {
    Histograms.New(c.area.x.0, c.area.x.1, c.dimensions.x, c.area.y.0, c.area.y.1, c.dimensions.y,
                   seq(|c.layers|, i requires 0 <= i < |c.layers| => c.layers[i].data))
  }

  /** The grid of one layer alone, as `Cache::populate` builds one
      histogram per layer over the same area. */
  function LayerGrid(c: Cache, j: nat): (h: Histograms.Histogram)
    requires WellFormed(c) && NonDegenerate(c.area) && j < |c.layers|
    ensures h.xaxis == Grid(c).xaxis && h.yaxis == Grid(c).yaxis
    ensures Histograms.Valid(h) && h.bins == [c.layers[j].data]
  {
    Histograms.New(c.area.x.0, c.area.x.1, c.dimensions.x, c.area.y.0, c.area.y.1, c.dimensions.y,
                   [c.layers[j].data])
  }

  /** The pixel centre (x, y) as the complex number x + iy. */
  function Point(p: (real, real)): Complex {
    Complex(p.0, p.1)
  }

  /** How many of the points `zs` fall in cell k. This is the reference
      count the fill loops are checked against. */
  function Hits(h: Histograms.Histogram, zs: seq<Complex>, k: nat): nat
    decreases |zs|
  {
    if |zs| == 0 then 0
    else (if Histograms.Cell(h, zs[0].re, zs[0].im) == Some(k) then 1 else 0) + Hits(h, zs[1..], k)
  }

  /** `Hits` depends on the axes of the histogram only. */
  lemma {:induction false} HitsReadsAxes(a: Histograms.Histogram, b: Histograms.Histogram, zs: seq<Complex>, k: nat)
    requires a.xaxis == b.xaxis && a.yaxis == b.yaxis
    ensures Hits(a, zs, k) == Hits(b, zs, k)
    decreases |zs|
  {
    if |zs| > 0 {
      Histograms.CellReadsAxes(a, b, zs[0].re, zs[0].im);
      HitsReadsAxes(a, b, zs[1..], k);
    }
  }

  /** `for z in nums { histo.fill(layer, z.re, z.im) }`: the orbit's points
      are counted in layer `l` one after the other. */
  function FillOrbit(h: Histograms.Histogram, l: nat, zs: seq<Complex>): (r: Histograms.Histogram)
    requires Histograms.Valid(h) && l < |h.bins|
    ensures r.xaxis == h.xaxis && r.yaxis == h.yaxis && |r.bins| == |h.bins| && Histograms.Valid(r)
    decreases |zs|
  {
    if |zs| == 0 then h else FillOrbit(Histograms.Fill(h, l, zs[0].re, zs[0].im), l, zs[1..])
  }

  /** Filling an orbit into layer `l` adds to each cell of that layer the
      number of orbit points in the cell; no other layer changes. */
  lemma {:induction false} FillOrbitCounts(h: Histograms.Histogram, l: nat, zs: seq<Complex>, j: nat, k: nat)
    requires Histograms.Valid(h) && l < |h.bins| && j < |h.bins| && k < Histograms.CellCount(h)
    ensures FillOrbit(h, l, zs).bins[j][k] == h.bins[j][k] + (if j == l then Hits(h, zs, k) else 0)
    decreases |zs|
  {
    if |zs| > 0 {
      var h1 := Histograms.Fill(h, l, zs[0].re, zs[0].im);
      Histograms.FillCounts(h, l, zs[0].re, zs[0].im, j, k);
      FillOrbitCounts(h1, l, zs[1..], j, k);
      HitsReadsAxes(h1, h, zs[1..], k);
    }
  }

  /** One pass of the loop over the layers: layer `l` counts the orbit when
      the orbit is shorter than the layer's threshold. */
  function FeedLayer(h: Histograms.Histogram, its: seq<nat>, zs: seq<Complex>, l: nat): (r: Histograms.Histogram)
    requires Histograms.Valid(h) && |its| == |h.bins| && l < |its|
    ensures r.xaxis == h.xaxis && r.yaxis == h.yaxis && |r.bins| == |h.bins| && Histograms.Valid(r)
  {
    if |zs| < its[l] then FillOrbit(h, l, zs) else h
  }

  /** The loop over the layers for one orbit, from layer `l` on. */
  function FeedLayers(h: Histograms.Histogram, its: seq<nat>, zs: seq<Complex>, l: nat): (r: Histograms.Histogram)
    requires Histograms.Valid(h) && |its| == |h.bins| && l <= |its|
    ensures r.xaxis == h.xaxis && r.yaxis == h.yaxis && |r.bins| == |h.bins| && Histograms.Valid(r)
    decreases |its| - l
  {
    if l == |its| then h else FeedLayers(FeedLayer(h, its, zs, l), its, zs, l + 1)
  }

  lemma FeedLayerCounts(h: Histograms.Histogram, its: seq<nat>, zs: seq<Complex>, l: nat, j: nat, k: nat)
    requires Histograms.Valid(h) && |its| == |h.bins| && l < |its|
    requires j < |h.bins| && k < Histograms.CellCount(h)
    ensures FeedLayer(h, its, zs, l).bins[j][k] == h.bins[j][k] + (if j == l && |zs| < its[j] then Hits(h, zs, k) else 0)
  {
    if |zs| < its[l] {
      FillOrbitCounts(h, l, zs, j, k);
    }
  }

  /** Layer j, from `l` on, gains the orbit's hits exactly when the orbit is
      shorter than the layer's threshold; the layers before `l` keep their
      counts. */
  lemma {:induction false} FeedLayersCounts(h: Histograms.Histogram, its: seq<nat>, zs: seq<Complex>, l: nat,
                                            j: nat, k: nat)
    requires Histograms.Valid(h) && |its| == |h.bins| && l <= |its|
    requires j < |h.bins| && k < Histograms.CellCount(h)
    ensures FeedLayers(h, its, zs, l).bins[j][k]
            == h.bins[j][k] + (if l <= j && |zs| < its[j] then Hits(h, zs, k) else 0)
    decreases |its| - l
  {
    if l < |its| {
      var h1 := FeedLayer(h, its, zs, l);
      FeedLayerCounts(h, its, zs, l, j, k);
      FeedLayersCounts(h1, its, zs, l + 1, j, k);
      HitsReadsAxes(h1, h, zs, k);
    }
  }

  /** What one centre adds to cell k of a layer with threshold t when its
      orbit is truncated to m points. */
  function Contribution(h: Histograms.Histogram, t: nat, m: nat, p: (real, real), k: nat): nat {
    var zs := Orbit(Point(p), m);
    if |zs| < t then Hits(h, zs, k) else 0
  }

  /** The total of `Contribution` over the centres `ps`. */
  function SweepHits(h: Histograms.Histogram, t: nat, m: nat, ps: seq<(real, real)>, k: nat): nat
    decreases |ps|
  {
    if |ps| == 0 then 0 else Contribution(h, t, m, ps[0], k) + SweepHits(h, t, m, ps[1..], k)
  }

  /** The loop over the centres: each centre's orbit, truncated to m
      points, is fed to all layers. */
  function Sweep(h: Histograms.Histogram, its: seq<nat>, m: nat, ps: seq<(real, real)>): (r: Histograms.Histogram)
    requires Histograms.Valid(h) && |its| == |h.bins|
    ensures r.xaxis == h.xaxis && r.yaxis == h.yaxis && |r.bins| == |h.bins| && Histograms.Valid(r)
    decreases |ps|
  {
    if |ps| == 0 then h else Sweep(FeedLayers(h, its, Orbit(Point(ps[0]), m), 0), its, m, ps[1..])
  }

  /** Every counter grows by the total contribution of the centres to it. */
  lemma {:induction false} SweepCounts(h: Histograms.Histogram, its: seq<nat>, m: nat, ps: seq<(real, real)>,
                                       j: nat, k: nat)
    requires Histograms.Valid(h) && |its| == |h.bins|
    requires j < |h.bins| && k < Histograms.CellCount(h)
    ensures Sweep(h, its, m, ps).bins[j][k] == h.bins[j][k] + SweepHits(h, its[j], m, ps, k)
    decreases |ps|
  {
    if |ps| > 0 {
      var zs := Orbit(Point(ps[0]), m);
      var h1 := FeedLayers(h, its, zs, 0);
      FeedLayersCounts(h, its, zs, 0, j, k);
      SweepCounts(h1, its, m, ps[1..], j, k);
      SweepHitsReadsAxes(h1, h, its[j], m, ps[1..], k);
    }
  }

  lemma {:induction false} SweepHitsReadsAxes(a: Histograms.Histogram, b: Histograms.Histogram, t: nat, m: nat,
                                              ps: seq<(real, real)>, k: nat)
    requires a.xaxis == b.xaxis && a.yaxis == b.yaxis
    ensures SweepHits(a, t, m, ps, k) == SweepHits(b, t, m, ps, k)
    decreases |ps|
  {
    if |ps| > 0 {
      HitsReadsAxes(a, b, Orbit(Point(ps[0]), m), k);
      SweepHitsReadsAxes(a, b, t, m, ps[1..], k);
    }
  }

  /** The reference: the Buddhabrot of one layer with threshold t, computed
      on its own. Every centre whose orbit, truncated to t points, is
      shorter than t (the orbit escaped) adds the points of that orbit that
      fall in cell k. */
  function OwnHits(h: Histograms.Histogram, t: nat, ps: seq<(real, real)>, k: nat): nat
    decreases |ps|
  {
    if |ps| == 0 then 0
    else
      var zs := Orbit(Point(ps[0]), t);
      (if |zs| < t then Hits(h, zs, k) else 0) + OwnHits(h, t, ps[1..], k)
  }

  /** Sharing one orbit truncated at m between all layers gives a layer
      with threshold t <= m the same counts as computing its own orbits. */
  lemma {:induction false} SharedOrbitIsOwnOrbit(h: Histograms.Histogram, t: nat, m: nat, ps: seq<(real, real)>, k: nat)
    requires t <= m
    ensures SweepHits(h, t, m, ps, k) == OwnHits(h, t, ps, k)
    decreases |ps|
  {
    if |ps| > 0 {
      SharedBudget(Point(ps[0]), t, m);
      SharedOrbitIsOwnOrbit(h, t, m, ps[1..], k);
    }
  }

  /** `populate_cache`: the histogram over the cache is swept with all pixel
      centres and the largest threshold, and the cache becomes valid; area,
      dimensions and thresholds are kept. When a side of the area has length
      zero, the program's axis scale is a float division by zero: every
      point falls outside the histogram, so only the flag changes. */
  function PopulateCache(c: Cache): (r: Cache)
    requires WellFormed(c)
    ensures r.area == c.area && r.dimensions == c.dimensions && r.valid && WellFormed(r)
    ensures CacheShape(r) == CacheShape(c)
    ensures !NonDegenerate(c.area) ==> r == c.(valid := true)
  {
    if !NonDegenerate(c.area) then c.(valid := true)
    else
      var h := Grid(c);
      var swept := Sweep(h, Thresholds(c), MaxIterations(Thresholds(c)), Histograms.Centers(h));
      var r := Cache(c.area, c.dimensions,
                     seq(|c.layers|, i requires 0 <= i < |c.layers| => LayerData(c.layers[i].iterations, swept.bins[i])),
                     true);
      assert CacheShape(r).iterations == CacheShape(c).iterations;
      r
  }

  /** After `populate_cache`, each layer's counter for pixel k has grown by
      exactly the Buddhabrot of the layer's own threshold over all pixel
      centres: the number of points, of all escaping orbits, in the cell. */
  lemma PopulateCacheCounts(c: Cache, j: nat, k: nat)
    requires WellFormed(c) && NonDegenerate(c.area)
    requires j < |c.layers| && k < Size(c.dimensions)
    ensures PopulateCache(c).layers[j].data[k]
            == c.layers[j].data[k] + OwnHits(Grid(c), c.layers[j].iterations, Histograms.Centers(Grid(c)), k)
  {
    var h := Grid(c);
    var its := Thresholds(c);
    var ps := Histograms.Centers(h);
    var m := MaxIterations(its);
    SweepCounts(h, its, m, ps, j, k);
    SharedOrbitIsOwnOrbit(h, its[j], m, ps, k);
  }

  /** `Cache::populate`: the same sweep, but with one histogram per layer,
      each over the same area, and the centres taken from the first one.
      With no layers there is no first histogram and the program panics;
      the model requires at least one layer. A zero-length side counts
      nothing, as in `PopulateCache`. */
  function Populate(c: Cache): (r: Cache)
    requires WellFormed(c) && |c.layers| > 0
    ensures r.area == c.area && r.dimensions == c.dimensions && r.valid && WellFormed(r)
    ensures CacheShape(r) == CacheShape(c)
    ensures !NonDegenerate(c.area) ==> r == c.(valid := true)
  {
    if !NonDegenerate(c.area) then c.(valid := true)
    else
      var m := MaxIterations(Thresholds(c));
      var ps := Histograms.Centers(LayerGrid(c, 0));
      var r := Cache(c.area, c.dimensions,
                     seq(|c.layers|, j requires 0 <= j < |c.layers| =>
                           LayerData(c.layers[j].iterations, LayerSweep(c, j, m, ps))),
                     true);
      assert CacheShape(r).iterations == CacheShape(c).iterations;
      r
  }

  /** The counters of layer j after sweeping its own histogram. */
  function LayerSweep(c: Cache, j: nat, m: nat, ps: seq<(real, real)>): (data: seq<nat>)
    requires WellFormed(c) && NonDegenerate(c.area) && j < |c.layers|
    ensures |data| == Size(c.dimensions)
  {
    Sweep(LayerGrid(c, j), [c.layers[j].iterations], m, ps).bins[0]
  }

  /** Counter k of layer j after its own sweep has grown by that layer's
      total contribution, read against the shared multi-layer grid. */
  lemma LayerSweepCounts(c: Cache, j: nat, m: nat, ps: seq<(real, real)>, k: nat)
    requires WellFormed(c) && NonDegenerate(c.area) && j < |c.layers| && k < Size(c.dimensions)
    ensures LayerSweep(c, j, m, ps)[k] == c.layers[j].data[k] + SweepHits(Grid(c), c.layers[j].iterations, m, ps, k)
  {
    var g := LayerGrid(c, j);
    SweepCounts(g, [c.layers[j].iterations], m, ps, 0, k);
    SweepHitsReadsAxes(g, Grid(c), c.layers[j].iterations, m, ps, k);
  }

  /** The two populate functions compute the same cache: one histogram per
      layer counts exactly what the one multi-layer histogram counts. */
  lemma PopulateAgrees(c: Cache)
    requires WellFormed(c) && |c.layers| > 0
    ensures Populate(c) == PopulateCache(c)
  {
    if !NonDegenerate(c.area) {
      return;
    }
    var h := Grid(c);
    var its := Thresholds(c);
    var m := MaxIterations(its);
    var ps := Histograms.Centers(h);
    assert Histograms.Centers(LayerGrid(c, 0)) == ps;
    var swept := Sweep(h, its, m, ps);
    forall j | 0 <= j < |c.layers|
      ensures LayerSweep(c, j, m, ps) == swept.bins[j]
    {
      forall k | 0 <= k < Size(c.dimensions)
        ensures LayerSweep(c, j, m, ps)[k] == swept.bins[j][k]
      {
        LayerSweepCounts(c, j, m, ps, k);
        SweepCounts(h, its, m, ps, j, k);
      }
    }
  }

  lemma {:induction false} SweepHitsAppend(h: Histograms.Histogram, t: nat, m: nat, ps: seq<(real, real)>,
                                           qs: seq<(real, real)>, k: nat)
    ensures SweepHits(h, t, m, ps + qs, k) == SweepHits(h, t, m, ps, k) + SweepHits(h, t, m, qs, k)
    decreases |ps|
  {
    if |ps| > 0 {
      assert (ps + qs)[0] == ps[0];
      assert (ps + qs)[1..] == ps[1..] + qs;
      SweepHitsAppend(h, t, m, ps[1..], qs, k);
    } else {
      assert ps + qs == qs;
    }
  }

  /** The total over the centres does not depend on their order. */
  lemma {:induction false} SweepHitsPermutation(h: Histograms.Histogram, t: nat, m: nat, ps: seq<(real, real)>,
                                                qs: seq<(real, real)>, k: nat)
    requires multiset(ps) == multiset(qs)
    ensures SweepHits(h, t, m, ps, k) == SweepHits(h, t, m, qs, k)
    decreases |ps|
  {
    if |ps| > 0 {
      var p := ps[0];
      assert p in multiset(qs);
      var i :| 0 <= i < |qs| && qs[i] == p;
      var rest := qs[..i] + qs[i + 1..];
      RemoveFirst(ps, qs, i);
      SweepHitsPermutation(h, t, m, ps[1..], rest, k);
      assert qs == qs[..i] + [p] + qs[i + 1..];
      SweepHitsAppend(h, t, m, qs[..i] + [p], qs[i + 1..], k);
      SweepHitsAppend(h, t, m, qs[..i], [p], k);
      SweepHitsAppend(h, t, m, qs[..i], qs[i + 1..], k);
    }
  }

  /** Removing the first element of ps and one equal element of qs keeps
      the two multisets equal. */
  lemma RemoveFirst<T>(ps: seq<T>, qs: seq<T>, i: nat)
    requires multiset(ps) == multiset(qs) && |ps| > 0 && i < |qs| && qs[i] == ps[0]
    ensures multiset(ps[1..]) == multiset(qs[..i] + qs[i + 1..])
  {
    var p, rest := ps[0], qs[..i] + qs[i + 1..];
    assert qs == qs[..i] + [p] + qs[i + 1..];
    assert ps == [p] + ps[1..];
    calc {
      multiset(ps[1..]);
      multiset(ps) - multiset{p};
      multiset(qs[..i]) + multiset{p} + multiset(qs[i + 1..]) - multiset{p};
      multiset(rest);
    }
  }

  /** The program may process the centres in any order (src/cache.rs splits
      them into chunks that run in parallel): every order of the same
      centres gives the same histogram. */
  lemma SweepOrderIrrelevant(h: Histograms.Histogram, its: seq<nat>, m: nat, ps: seq<(real, real)>,
                             qs: seq<(real, real)>)
    requires Histograms.Valid(h) && |its| == |h.bins|
    requires multiset(ps) == multiset(qs)
    ensures Sweep(h, its, m, ps) == Sweep(h, its, m, qs)
  {
    var a, b := Sweep(h, its, m, ps), Sweep(h, its, m, qs);
    forall j, k | 0 <= j < |h.bins| && 0 <= k < Histograms.CellCount(h)
      ensures a.bins[j][k] == b.bins[j][k]
    {
      SweepCounts(h, its, m, ps, j, k);
      SweepCounts(h, its, m, qs, j, k);
      SweepHitsPermutation(h, its[j], m, ps, qs, k);
    }
    Histograms.SameCounts(a, b);
  }

  /** Sweeping two batches of centres one after the other is sweeping them
      together. */
  lemma SweepBatches(h: Histograms.Histogram, its: seq<nat>, m: nat, ps: seq<(real, real)>,
                     qs: seq<(real, real)>)
    requires Histograms.Valid(h) && |its| == |h.bins|
    ensures Sweep(Sweep(h, its, m, ps), its, m, qs) == Sweep(h, its, m, ps + qs)
  {
    var h1 := Sweep(h, its, m, ps);
    var a, b := Sweep(h1, its, m, qs), Sweep(h, its, m, ps + qs);
    forall j, k | 0 <= j < |h.bins| && 0 <= k < Histograms.CellCount(h)
      ensures a.bins[j][k] == b.bins[j][k]
    {
      SweepCounts(h, its, m, ps, j, k);
      SweepCounts(h1, its, m, qs, j, k);
      SweepCounts(h, its, m, ps + qs, j, k);
      SweepHitsReadsAxes(h1, h, its[j], m, qs, k);
      SweepHitsAppend(h, its[j], m, ps, qs, k);
    }
    Histograms.SameCounts(a, b);
  }

  /** The pixel centres the sweep visits are one per cache counter, and the
      k-th of them falls in cell k. */
  lemma CentersCoverCache(c: Cache, k: nat)
    requires WellFormed(c) && NonDegenerate(c.area) && k < Size(c.dimensions)
    ensures |Histograms.Centers(Grid(c))| == Size(c.dimensions)
    ensures Histograms.Cell(Grid(c), Histograms.Centers(Grid(c))[k].0, Histograms.Centers(Grid(c))[k].1) == Some(k)
  {
    Histograms.CenterLandsInOwnCell(Grid(c), k);
  }
}
