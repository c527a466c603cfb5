/** The per-pixel compositing of `colorize` in src/color.rs.

    Every layer has a lookup table (LUT) that maps a counter value to a
    brightness. A pixel starts black; each layer, in order, contributes its
    colour with every channel capped at the layer's brightness for that pixel,
    and the pixel keeps the channel-wise maximum. The LUT entries are a
    floating-point formula of the program and are parameters here; the model
    fixes only the table's length, one entry per count 0..=max. */
module Colors {
  import Histograms
  import opened Caches
  import Population

  const Black: Rgb := [0, 0, 0]

  /** `l.data.iter().max().unwrap()`: the largest counter of a layer. The
      program panics on an empty layer, hence the precondition. */
  function MaxCount(data: seq<nat>): (m: nat)
    requires |data| > 0
    ensures forall i :: 0 <= i < |data| ==> data[i] <= m
    ensures exists i :: 0 <= i < |data| && data[i] == m
  {
    if |data| == 1 then data[0]
    else
      var m := MaxCount(data[1..]);
      assert forall i :: 1 <= i < |data| ==> data[i] == data[1..][i - 1];
      if data[0] >= m then data[0] else m
  }

  /** A LUT built for a layer: `(0..=max).map(...)` has max + 1 entries. */
  predicate LutFits(lut: seq<byte>, data: seq<nat>) {
    |data| > 0 && |lut| == MaxCount(data) + 1
  }

  /** `lut[data[idx]]` never indexes past the table: every counter is at
      most the maximum the table was built for. */
  lemma LutIndexInRange(lut: seq<byte>, data: seq<nat>, idx: nat)
    requires LutFits(lut, data) && idx < |data|
    ensures data[idx] < |lut|
  {
  }

  function Min(a: byte, b: byte): byte {
    if a <= b then a else b
  }

  function Max(a: byte, b: byte): byte {
    if a >= b then a else b
  }

  /** `cmp::min(color[j], v)` for all three channels: the layer's colour
      capped at brightness v. */
  function Capped(color: Rgb, v: byte): (c: Rgb)
    ensures forall j :: 0 <= j < 3 ==> c[j] <= color[j] && c[j] <= v
    ensures forall j :: 0 <= j < 3 ==> c[j] == color[j] || c[j] == v
  {
    [Min(color[0], v), Min(color[1], v), Min(color[2], v)]
  }

  /** `*col = cmp::max(*col, ...)` for all three channels: each channel of
      the result is at least both inputs and equals one of them. */
  function Blend(acc: Rgb, c: Rgb): (r: Rgb)
    ensures forall j :: 0 <= j < 3 ==> acc[j] <= r[j] && c[j] <= r[j]
    ensures forall j :: 0 <= j < 3 ==> r[j] == acc[j] || r[j] == c[j]
  {
    [Max(acc[0], c[0]), Max(acc[1], c[1]), Max(acc[2], c[2])]
  }

  /** Channel j of `r` is the largest channel j of the contributions, or 0
      (black) when there are none. */
  predicate IsBrightest(r: Rgb, cs: seq<Rgb>, j: nat)
    requires j < 3
  {
    && (forall i :: 0 <= i < |cs| ==> cs[i][j] <= r[j])
    && (r[j] == 0 || exists i :: 0 <= i < |cs| && cs[i][j] == r[j])
  }

  /** The loop over the layers: starting from black, blend in every
      contribution in order. Each channel ends as the brightest
      contribution to it. */
  function Composite(cs: seq<Rgb>): (r: Rgb)
    ensures forall j :: 0 <= j < 3 ==> IsBrightest(r, cs, j)
    decreases |cs|
  {
    if |cs| == 0 then Black
    else
      var acc := Composite(cs[..|cs| - 1]);
      assert cs == cs[..|cs| - 1] + [cs[|cs| - 1]];
      BlendKeepsBrightest(acc, cs[..|cs| - 1], cs[|cs| - 1]);
      Blend(acc, cs[|cs| - 1])
  }

  lemma BlendKeepsBrightest(acc: Rgb, cs: seq<Rgb>, c: Rgb)
    requires forall j :: 0 <= j < 3 ==> IsBrightest(acc, cs, j)
    ensures forall j :: 0 <= j < 3 ==> IsBrightest(Blend(acc, c), cs + [c], j)
  {
    var r := Blend(acc, c);
    forall j | 0 <= j < 3
      ensures IsBrightest(r, cs + [c], j)
    {
      assert IsBrightest(acc, cs, j);
      assert r[j] == Max(acc[j], c[j]);
      forall i | 0 <= i < |cs| + 1
        ensures (cs + [c])[i][j] <= r[j]
      {
        if i < |cs| {
          assert (cs + [c])[i] == cs[i];
        }
      }
      if r[j] != 0 {
        if r[j] == c[j] {
          assert (cs + [c])[|cs|] == c;
        } else {
          var i :| 0 <= i < |cs| && cs[i][j] == acc[j];
          assert (cs + [c])[i] == cs[i];
        }
      }
    }
  }

  /** The characterisation is unique: two colours that are both the
      brightest of the same contributions are equal. */
  lemma BrightestUnique(r: Rgb, s: Rgb, cs: seq<Rgb>, ds: seq<Rgb>)
    requires multiset(cs) == multiset(ds)
    requires forall j :: 0 <= j < 3 ==> IsBrightest(r, cs, j) && IsBrightest(s, ds, j)
    ensures r == s
  {
    forall j | 0 <= j < 3
      ensures r[j] <= s[j]
    {
      assert IsBrightest(r, cs, j) && IsBrightest(s, ds, j);
      if r[j] != 0 {
        var i :| 0 <= i < |cs| && cs[i][j] == r[j];
        assert cs[i] in multiset(ds);
        var i' :| 0 <= i' < |ds| && ds[i'] == cs[i];
      }
    }
    forall j | 0 <= j < 3
      ensures s[j] <= r[j]
    {
      assert IsBrightest(r, cs, j) && IsBrightest(s, ds, j);
      if s[j] != 0 {
        var i :| 0 <= i < |ds| && ds[i][j] == s[j];
        assert ds[i] in multiset(cs);
        var i' :| 0 <= i' < |cs| && cs[i'] == ds[i];
      }
    }
    assert r == [r[0], r[1], r[2]] && s == [s[0], s[1], s[2]];
  }

  /** The order of the layers does not matter: the same contributions in
      any order give the same pixel. */
  lemma CompositeOrderIrrelevant(cs: seq<Rgb>, ds: seq<Rgb>)
    requires multiset(cs) == multiset(ds)
    ensures Composite(cs) == Composite(ds)
  {
    BrightestUnique(Composite(cs), Composite(ds), cs, ds);
  }

  /** What `colorize` needs of its inputs to run without a panic: one LUT
      per cached layer, each built for that layer's counters; a configured
      layer (with its colour) for every cached layer; and a counter for
      every pixel of the configured image. */
  predicate Colorable(c: Cache, config: Configuration<Rgb>, luts: seq<seq<byte>>) {
    && |luts| == |c.layers| <= |config.layers|
    && forall i :: 0 <= i < |luts| ==>
         LutFits(luts[i], c.layers[i].data) && Size(config.dimensions) <= |c.layers[i].data|
  }

  /** `lut[cache.layers[i].data[idx]]`: the brightness of layer i at the
      pixel with counter index idx. */
  function Brightness(c: Cache, config: Configuration<Rgb>, luts: seq<seq<byte>>, i: nat, idx: nat): byte
    requires Colorable(c, config, luts) && i < |luts| && idx < Size(config.dimensions)
  {
    LutIndexInRange(luts[i], c.layers[i].data, idx);
    luts[i][c.layers[i].data[idx]]
  }

  /** The contribution of every layer to the pixel with counter index idx:
      `min(config.layers[i].color[j], lut[data[idx]])`. Each channel is at
      most the layer's colour and at most the layer's brightness for the
      pixel, and equals one of the two. */
  function Contributions(c: Cache, config: Configuration<Rgb>, luts: seq<seq<byte>>, idx: nat): (cs: seq<Rgb>)
    requires Colorable(c, config, luts) && idx < Size(config.dimensions)
    ensures |cs| == |luts|
    ensures forall i, j :: 0 <= i < |luts| && 0 <= j < 3 ==>
              cs[i][j] <= config.layers[i].color[j] && cs[i][j] <= Brightness(c, config, luts, i, idx)
    ensures forall i, j :: 0 <= i < |luts| && 0 <= j < 3 ==>
              cs[i][j] == config.layers[i].color[j] || cs[i][j] == Brightness(c, config, luts, i, idx)
  {
    seq(|luts|, i requires 0 <= i < |luts| =>
          Capped(config.layers[i].color, Brightness(c, config, luts, i, idx)))
  }

  /** `colorize` without the file: the image, row by row, of the configured
      size. The pixel at column x of row y reads counter x + y * width. */
  function Colorize(c: Cache, config: Configuration<Rgb>, luts: seq<seq<byte>>): (img: seq<seq<Rgb>>)
    requires Colorable(c, config, luts)
    ensures |img| == config.dimensions.y
    ensures forall y :: 0 <= y < |img| ==> |img[y]| == config.dimensions.x
  {
    seq(config.dimensions.y, y requires 0 <= y < config.dimensions.y => ImageRow(c, config, luts, y))
  }

  /** Row y of the image. */
  function ImageRow(c: Cache, config: Configuration<Rgb>, luts: seq<seq<byte>>, y: nat): (row: seq<Rgb>)
    requires Colorable(c, config, luts) && y < config.dimensions.y
    ensures |row| == config.dimensions.x
  {
    var w, h := config.dimensions.x, config.dimensions.y;
    seq<Rgb>(w, x requires 0 <= x < w => PixelIndex(w, h, x, y); Pixel(c, config, luts, Counter(w, x, y)))
  }

  /** The colour of the pixel whose counters sit at index idx: on every
      channel, the brightest contribution of the layers. */
  function Pixel(c: Cache, config: Configuration<Rgb>, luts: seq<seq<byte>>, idx: nat): (r: Rgb)
    requires Colorable(c, config, luts) && idx < Size(config.dimensions)
    ensures forall j :: 0 <= j < 3 ==> IsBrightest(r, Contributions(c, config, luts, idx), j)
  {
    Composite(Contributions(c, config, luts, idx))
  }

  /** The counter of pixel (x, y) is the row-major index x + y * width and
      stays inside the image. */
  lemma PixelIndex(w: Histograms.u16, h: Histograms.u16, x: nat, y: nat)
    requires x < w && y < h
    ensures Counter(w, x, y) == x + y * w
    ensures Counter(w, x, y) < Size(Dimensions(w, h))
  {
    CounterIsRowMajor(w, x, y);
    Histograms.GridCoordinates(x, y, w, h);
  }

  /** v is the brightest capped colour on channel j over all layers at the
      pixel with counter index idx: at least min(colour, brightness) of
      every layer, and equal to one of them unless it is black. */
  predicate BrightestLayer(c: Cache, config: Configuration<Rgb>, luts: seq<seq<byte>>, idx: nat, j: nat, v: byte)
    requires Colorable(c, config, luts) && idx < Size(config.dimensions) && j < 3
  {
    && (forall i :: 0 <= i < |luts| ==>
          Min(config.layers[i].color[j], Brightness(c, config, luts, i, idx)) <= v)
    && (v == 0 ||
        exists i :: 0 <= i < |luts| &&
          Min(config.layers[i].color[j], Brightness(c, config, luts, i, idx)) == v)
  }

  /** Each channel of pixel (x, y) is the brightest capped colour over all
      layers at the pixel's counter. */
  lemma PixelIsBrightestLayer(c: Cache, config: Configuration<Rgb>, luts: seq<seq<byte>>, x: nat, y: nat, j: nat)
    requires Colorable(c, config, luts)
    requires x < config.dimensions.x && y < config.dimensions.y && j < 3
    ensures Counter(config.dimensions.x, x, y) < Size(config.dimensions)
    ensures BrightestLayer(c, config, luts, Counter(config.dimensions.x, x, y), j, Colorize(c, config, luts)[y][x][j])
  {
    ColorizeAt(c, config, luts, x, y);
    PixelBrightest(c, config, luts, Counter(config.dimensions.x, x, y), j);
  }

  /** The counter of pixel (x, y) in an image of width w, counted row by
      row: x past the start of row y. */
  function Counter(w: nat, x: nat, y: nat): nat
    decreases y
  {
    if y == 0 then x else Counter(w, x, y - 1) + w
  }

  /** Counting row by row gives the row-major index x + y * w. */
  lemma {:induction false} CounterIsRowMajor(w: nat, x: nat, y: nat)
    ensures Counter(w, x, y) == x + y * w
    decreases y
  {
    if y > 0 {
      CounterIsRowMajor(w, x, y - 1);
    }
  }

  /** Channel j of the pixel with counter index idx is the brightest capped
      colour of the layers. */
  lemma PixelBrightest(c: Cache, config: Configuration<Rgb>, luts: seq<seq<byte>>, idx: nat, j: nat)
    requires Colorable(c, config, luts) && idx < Size(config.dimensions) && j < 3
    ensures BrightestLayer(c, config, luts, idx, j, Pixel(c, config, luts, idx)[j])
  {
    var cs := Contributions(c, config, luts, idx);
    assert IsBrightest(Pixel(c, config, luts, idx), cs, j);
    forall i | 0 <= i < |luts|
      ensures cs[i][j] == Min(config.layers[i].color[j], Brightness(c, config, luts, i, idx))
    {
    }
  }

  /** Pixel (x, y) of the image is the composite of its counter. */
  lemma ColorizeAt(c: Cache, config: Configuration<Rgb>, luts: seq<seq<byte>>, x: nat, y: nat)
    requires Colorable(c, config, luts)
    requires x < config.dimensions.x && y < config.dimensions.y
    ensures Counter(config.dimensions.x, x, y) < Size(config.dimensions)
    ensures Colorize(c, config, luts)[y][x] == Pixel(c, config, luts, Counter(config.dimensions.x, x, y))
  {
    ImageRowAt(c, config, luts, x, y);
  }

  /** Column x of row y is the composite of the pixel's counter. */
  lemma ImageRowAt(c: Cache, config: Configuration<Rgb>, luts: seq<seq<byte>>, x: nat, y: nat)
    requires Colorable(c, config, luts)
    requires x < config.dimensions.x && y < config.dimensions.y
    ensures Counter(config.dimensions.x, x, y) < Size(config.dimensions)
    ensures ImageRow(c, config, luts, y)[x] == Pixel(c, config, luts, Counter(config.dimensions.x, x, y))
  {
    PixelIndex(config.dimensions.x, config.dimensions.y, x, y);
  }

  /** Pixel (x, y) of the image shows the histogram cell whose centre the
      population sweep used for column x and row y: counter x + y * width
      is the cell of the centre (x-th x centre, y-th y centre). */
  lemma PixelShowsItsCell(c: Cache, config: Configuration<Rgb>, x: nat, y: nat)
    requires WellFormed(c) && Population.NonDegenerate(c.area) && c.dimensions == config.dimensions
    requires x < config.dimensions.x && y < config.dimensions.y
    ensures var g := Population.Grid(c);
            && x + y * config.dimensions.x == Histograms.Index(g, x, y)
            && Histograms.Centers(g)[x + y * config.dimensions.x]
               == (Histograms.AxisCenters(g.xaxis)[x], Histograms.AxisCenters(g.yaxis)[y])
  {
  }

  /** Without layers every pixel is black. */
  lemma NoLayersIsBlack()
    ensures Composite([]) == Black
  {
  }

  /** A layer of colour (100, 100, 100) at brightness 50 and one of colour
      (10, 10, 10) at brightness 200 give (50, 50, 50). */
  lemma CompositeExample()
    ensures Composite([Capped(Gray(100), 50), Capped(Gray(10), 200)]) == Gray(50)
  {
    var cs := [Capped(Gray(100), 50), Capped(Gray(10), 200)];
    assert cs[..1] == [Capped(Gray(100), 50)];
    assert cs[..1][..0] == [];
  }
}
