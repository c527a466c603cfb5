# rostbrot core in Dafny

rostbrot renders Buddhabrot images. For every pixel centre c of a rectangle
of the complex plane it iterates z := z*z + c from z = 0. If the orbit
leaves the disc of radius 2 within a layer's iteration threshold, every
point of that orbit is counted in the layer's histogram. The per-layer
counter grids are kept in a cache file. A stored cache is reused only when
it was computed for the same area, image size and thresholds. Colouring then
maps every counter through a per-layer lookup table (LUT) and blends the
layers channel by channel.

The model has six modules, one file each:

- `wrappers.dfy`, module `Wrappers`: `Option`.
- `histograms.dfy`, module `Histograms`: `Binning` (one axis) and the
  multi-layer `Histogram` of `src/histogram.rs`. This covers binning, cell
  centres, the row-major index and `fill`.
- `mandelbrot.dfy`, module `Mandelbrot`: `ComplexSequence` and its `next`,
  `mandelbrot(c)`, the orbit that `take(n)` collects, and `first_bulb`.
- `caches.dfy`, module `Caches`: the configuration and the cache of
  `src/cache.rs`, which `src/main.rs` duplicates. This covers
  `Dimensions::size`, the layer and cache equalities, `Cache::new` and the
  decision of `Cache::load`.
- `population.dfy`, module `Population`: `populate_cache` of `src/main.rs`
  (one histogram with a grid per layer) and `Cache::populate` of
  `src/cache.rs` (one histogram per layer). It proves that both give every
  layer exactly the Buddhabrot of its own threshold.
- `colors.dfy`, module `Colors`: the pixel loop of `colorize`. The LUTs are
  parameters.

Numbers are exact: coordinates are `real`, counters are `nat`, and image
sizes are `u16`-bounded naturals. The cache file, the YAML configuration,
the progress bar and the thread pool are not modelled. `Load` receives the
decoded file as an `Option` instead. The parallel sweep is modelled as a
sequential one, together with lemmas showing that the order and batching of
the pixel centres do not change the result.

## Model

| member | source | states |
|---|---|---|
| Histograms.Bin | src/histogram.rs:17-28 | A value bins to cell i exactly when i <= (v - min) * scale < i + 1 and i < num. It gives None exactly when the scaled offset is negative or at least num. Out-of-range values are dropped, not clamped. |
| Histograms.AxisCenters | src/histogram.rs:30-34 | There are num centres. The i-th centre is the midpoint of cell i: its scaled offset is i + 0.5. It bins back into cell i. With a positive scale the centres strictly increase. |
| Histograms.BinningExamples | src/histogram.rs:94-116 | The unit tests: a 2-cell axis of scale 2 has centres [0.25, 0.75]; 0.1 bins to cell 0 and 5.0 to no cell on a 2-cell axis of scale 1. |
| Histograms.New | src/histogram.rs:67-87 | The axes have the requested cell counts and keep the given grids. xmin and ymin sit at offset 0, and xmax and ymax at offset xnum and ynum. |
| Histograms.Index | src/histogram.rs:47-49 | Inside the grid the flat index is below the cell count. Dividing it by the row length gives back (x, y), so it is a bijection. |
| Histograms.Cell | src/histogram.rs:57-63 | A point has a cell exactly when both coordinates bin. Its flat index is in range and decodes to the two bins. |
| Histograms.Fill | src/histogram.rs:57-65 | The axes, the number of layers and validity are kept. A point off the grid changes nothing. |
| Histograms.FillCounts | src/histogram.rs:57-65 | Counter k of layer j goes up by one exactly when j is the filled layer and k is the point's cell. Every other counter is unchanged. |
| Histograms.Centers | src/histogram.rs:51-55 | One centre per cell. The centre of cell (x, y) sits at flat position index(x, y): the x-th x centre paired with the y-th y centre, y outer and x inner. |
| Histograms.CenterLandsInOwnCell | src/histogram.rs:47-65 | The k-th centre that `centers` yields falls into cell k under `fill`. |
| Histograms.FillAtCenter | src/histogram.rs:51-65 | Filling with the k-th centre raises exactly counter k of the chosen layer by one. |
| Histograms.FillCommutes | src/histogram.rs:57-65 | Two fills commute, into the same layer or into different ones. |
| Histograms.UsageNew | src/histogram.rs:122 | `Histogram::new(0.0, 1.0, 2, 0.0, 1.0, 1, data)` of the unit test builds a 2 x 1 grid over [0,1] x [0,1]: x scale 2, y scale 1, one layer of two zero counters. |
| Histograms.UsageCenters | src/histogram.rs:119-124 | The unit test's 2 x 1 histogram over [0,1] x [0,1] has centres (0.25, 0.5) and (0.75, 0.5). |
| Histograms.UsageFill | src/histogram.rs:125-128 | In the same test, (-2, 3) changes nothing and (0.51, 0.1) counts once in cell 1. |
| Mandelbrot.MandelbrotSequence | src/mandelbrot.rs:56-70 | The sequence starts at the origin with parameter c and radius 2. |
| Mandelbrot.Next | src/mandelbrot.rs:19-25 | The state always advances by one step z*z + c. The new iterate is yielded exactly when it has not escaped the radius. |
| Mandelbrot.Take | src/mandelbrot.rs:19-25 | `take(n)` yields at most n items, and all of them lie in the closed disc. |
| Mandelbrot.Orbit | src/main.rs:188 | `mandelbrot(c).take(max_iter).collect()` has at most max_iter points, and every point lies in the closed disc of radius 2. |
| Mandelbrot.TakeFollowsIterates | src/mandelbrot.rs:19-25 | The k-th item is the (k+1)-th iterate from the state. A short result means the next iterate escaped. |
| Mandelbrot.OrbitIsEscapePrefix | src/mandelbrot.rs:19-25 | The orbit of c truncated to n is the longest run z_1..z_m (m <= n) of iterates inside the disc. It stops short of n only at an escape. |
| Mandelbrot.SharedBudget | src/main.rs:188-190 | For a threshold t <= M, "orbit truncated at M is shorter than t" holds exactly when "orbit truncated at t is shorter than t". In that case the two orbits are equal. |
| Mandelbrot.FixedPointNeverEscapes | src/mandelbrot.rs:19-25 | A state that next leaves unchanged while yielding fills any budget. |
| Mandelbrot.OrbitOfZero | src/mandelbrot.rs:78-82 | For c = 0, any budget (20 in the test) is filled. |
| Mandelbrot.OrbitOfThree | src/mandelbrot.rs:84-87 | For c = 3 the orbit is empty. |
| Mandelbrot.OrbitOfOne | src/mandelbrot.rs:89-92 | For c = 1 with budget 20 the orbit is exactly [1, 2]. |
| Mandelbrot.FirstBulb | src/mandelbrot.rs:44-54 | A point of the radius-1/4 disc around -1 lies in the box (-1.25, -0.75) x (-0.25, 0.25). |
| Mandelbrot.FirstBulbExamples | src/mandelbrot.rs:107-120 | The unit tests: 0 is outside; -1.24, -0.76 and -1 + 0.24i are inside. |
| Caches.Size | src/cache.rs:55-59 | The size is zero exactly when one side is zero. It fits in 32 bits. |
| Caches.Dimensionality | src/cache.rs:217-221 | 5 x 4 pixels make 20. |
| Caches.LayersMatch | src/cache.rs:84-89 | The zip loop returns true exactly when every zipped pair has equal thresholds. |
| Caches.LayerEquality | src/cache.rs:37-41 | Layer equality compares thresholds only, as the unit test at src/cache.rs:208-215 checks. |
| Caches.Matches | src/cache.rs:76-91 | A cache equals a configuration exactly when area, dimensions and layer count agree and every layer has the same threshold. Counters, colours and the valid flag are not compared. |
| Caches.MatchesIffSameShape | src/main.rs:75-90 | The equality is equality of (area, dimensions, threshold list). |
| Caches.New | src/cache.rs:101-116 | The new cache matches its configuration, is not valid, and has every counter of every layer zero, one per pixel. |
| Caches.Load | src/cache.rs:118-134 | The result always matches the configuration. A matching decoded cache is returned unchanged; otherwise (no file, decode error or mismatch) a New cache is returned. The result is valid only if it is the stored cache. |
| Caches.LoadRoundTrip | src/cache.rs:256-270 | Loading what Load returned gives it back. |
| Caches.LoadIgnoresColors | src/main.rs:92-124 | Configurations that differ only in their colours load the same cache. So the loaders of src/cache.rs ([u8; 3] colour) and src/main.rs (float colour list) decide alike. |
| Caches.RestoreCache | src/cache.rs:256-270 | The unit test: a new cache of the test configuration is invalid, has 2 layers, and is restored unchanged. |
| Caches.RestoreModifiedCache | src/cache.rs:272-287 | The unit test: with threshold 0 changed to 100, the valid stored cache is rejected and the result is invalid. |
| Population.MaxIterations | src/main.rs:151-154 | max_iter is at least every threshold, is one of them, and is 0 without layers. |
| Population.Grid | src/main.rs:163-176 | The histogram over the cache is valid, has one counter per pixel, and its grids are the layers' counters. |
| Population.FillOrbit | src/main.rs:191-193 | Filling every point of an orbit into one layer keeps the axes, the number of layers and validity. |
| Population.FillOrbitCounts | src/main.rs:191-193 | Filling an orbit into layer l adds, to counter k of layer l only, the number of orbit points in cell k. |
| Population.FeedLayer | src/main.rs:189-195 | Offering one orbit to one layer keeps the axes, the number of layers and validity. |
| Population.FeedLayerCounts | src/main.rs:190-194 | Layer l gains the orbit's hits exactly when the orbit is shorter than its threshold; every other layer is unchanged. |
| Population.FeedLayers | src/main.rs:189-195 | Offering one orbit to every layer keeps the axes, the number of layers and validity. |
| Population.FeedLayersCounts | src/main.rs:189-195 | For one orbit, layer j gains that orbit's hits exactly when the orbit is shorter than the layer's threshold. |
| Population.Sweep | src/main.rs:185-197 | The loop over all centres keeps the axes, the number of layers and validity. |
| Population.SweepCounts | src/main.rs:185-197 | After the sweep over centres, counter k of layer j has grown by the sum over centres of that centre's contribution to layer j. |
| Population.SharedOrbitIsOwnOrbit | src/main.rs:186-195 | Using one orbit truncated at M for a layer of threshold t <= M counts exactly what the layer's own orbit, truncated at t, counts. |
| Population.PopulateCache | src/main.rs:150-203 | Area, dimensions and thresholds are kept, the counters stay one per pixel, and the cache becomes valid. A zero-length side counts nothing. |
| Population.PopulateCacheCounts | src/main.rs:150-203 | Every counter grows by exactly the Buddhabrot of its layer's own threshold: the number of points, of all escaping orbits of pixel centres, that fall in that pixel. |
| Population.Populate | src/cache.rs:142-199 | Same shape facts for the per-layer histograms of `Cache::populate`. |
| Population.PopulateAgrees | src/cache.rs:142-199 | `Cache::populate` and `populate_cache` compute the same cache. |
| Population.LayerGrid | src/cache.rs:153-167 | The one-grid histogram of layer j has the axes of the shared grid, is valid, and its only grid is that layer's counters. |
| Population.LayerSweep | src/cache.rs:176-191 | Sweeping the centres over layer j's own histogram leaves one counter per pixel. |
| Population.LayerSweepCounts | src/cache.rs:176-191 | Counter k of layer j grows by exactly the hits the shared-grid sweep would give layer j, so the per-layer histograms count what the single histogram does. |
| Population.SweepOrderIrrelevant | src/cache.rs:176-194 | Any order of the same centres gives the same histogram, so the parallel chunks can run in any order. |
| Population.SweepBatches | src/cache.rs:178-194 | Sweeping one batch of centres after another equals sweeping them together. |
| Population.CentersCoverCache | src/cache.rs:176-188 | There is one centre per counter, and the k-th centre falls in cell k. |
| Colors.MaxCount | src/color.rs:27 | The maximum of a layer's counters bounds all of them and is attained. |
| Colors.LutIndexInRange | src/color.rs:27-28 | With a LUT of max + 1 entries, `lut[data[idx]]` is always in range. |
| Colors.Blend | src/color.rs:56-58 | Each channel of the blend is at least the accumulated channel and the new colour's channel, and equals one of them. |
| Colors.Capped | src/color.rs:57 | Each channel of the capped colour is at most both the colour's channel and the brightness, and equals one of them. |
| Colors.Composite | src/color.rs:53-59 | Starting from black and blending every layer, each channel ends as the largest contribution to it, or 0 without contributions. |
| Colors.CompositeOrderIrrelevant | src/color.rs:53-59 | The same contributions in any order give the same pixel. |
| Colors.Contributions | src/color.rs:54-57 | One contribution per layer. Channel j of layer i's contribution is at most the layer colour's channel and at most the layer's brightness lut_i[data_i[idx]], and equals one of the two. |
| Colors.Pixel | src/color.rs:53-59 | Every channel of the pixel at counter idx is the brightest of the layers' contributions at idx (0 without layers). |
| Colors.Colorize | src/color.rs:19-20 | The image has the configured height and width. |
| Colors.ImageRow | src/color.rs:46-51 | A row of the image has the configured width. |
| Colors.PixelIndex | src/color.rs:51 | The counter of pixel (x, y) is x + y * width and lies inside the image. |
| Colors.CounterIsRowMajor | src/color.rs:51 | Counting row by row, the counter of pixel (x, y) is x + y * width. |
| Colors.ImageRowAt | src/color.rs:46-51 | Column x of row y is the pixel at that pixel's counter. |
| Colors.ColorizeAt | src/color.rs:46-51 | Pixel (x, y) of the image is the pixel at its counter, which is in range. |
| Colors.PixelBrightest | src/color.rs:53-59 | Channel j of the pixel at counter idx is at least min(colour_i[j], lut_i[data_i[idx]]) for every layer i, and equals one of them unless it is 0. |
| Colors.PixelIsBrightestLayer | src/color.rs:46-61 | Pixel (x, y) reads its counter x + y * width, which is in range. Each channel is at least every layer's capped brightness and equals one of them unless it is black. |
| Colors.PixelShowsItsCell | src/color.rs:51 | The counter that pixel (x, y) reads is the histogram cell of centre (x, y) used by the population sweep. |
| Colors.NoLayersIsBlack | src/color.rs:53 | Without layers the pixel stays at its initial black [0, 0, 0]. |
| Colors.CompositeExample | src/color.rs:53-59 | Colour 100 at brightness 50 and colour 10 at brightness 200 give 50 on every channel. |

## Left out

- Floating point: `f32` rounding, NaN and infinity are not modelled. Coordinates, scales and orbits are exact reals. `Area` equality is exact real equality; NaN areas never compare equal in the program.
- Histograms.Bin: uses the floor of the scaled offset and rejects anything negative. The program's `num_traits::cast` truncates toward zero and accepts offsets in (-1, 0) as cell 0, so a point just left of or below the grid is counted in the first column or row there and dropped here.
- Histograms.New: requires xmax != xmin and ymax != ymin because an exact real has no infinite scale. In the program such an axis has infinite or NaN scale and bins no point. PopulateCache and Populate model that consequence directly: nothing is counted.
- Mandelbrot.Square: computes z*z as (re² - im², 2·re·im). For reals this equals num-complex's product; it differs only in float rounding.
- Counters are unbounded: the `u32` wrap-around or overflow panic after 2^32 hits in one cell is not modelled.
- PopulateCache: requires every layer to hold exactly one counter per pixel (WellFormed). The program panics only when an accepted orbit point falls in a cell past the end of a shorter layer. A shorter layer that receives no such point is left as it is and the cache is still marked valid: a decoded cache with an empty layer of threshold 0 or 1 gets no point at all. A longer layer keeps its extra counters untouched. None of these inputs is modelled.
- Populate: requires WellFormed for the same reason, and at least one layer, because `histos[0]` panics without one.
- src/cache.rs's `populate` calls a two-argument `fill` on a histogram made from one slice, which does not match the three-argument `fill` and vector of slices of `src/histogram.rs`. The model gives each layer a one-grid histogram and fills grid 0.
- Caches.Load: the file system and bincode are abstracted into the `decoded` parameter. A decoded cache whose counter lengths differ from the dimensions is accepted, as in the program, because the equality ignores counters.
- `Cache::dump`, `Configuration::load` (YAML) and the `load_config` test are file I/O and are not modelled.
- Concurrency: rayon's `par_chunks`, the `Arc<Mutex<...>>` histograms and the progress bar are left out. The sweep is sequential, and SweepOrderIrrelevant and SweepBatches show that order and batching do not matter.
- The LUT formula of `colorize` (log2, `colorization.exponent`, `as u8`) is floating point. LUTs are parameters of Colorize; only their length (max + 1 entries) is fixed. `config.colorization` is not a field of `Configuration` in src/cache.rs and is not modelled.
- Writing the image file is left out; Colorize returns the pixel rows.
- Colors.Colorize: requires Colorable, which excludes the inputs on which `colorize` panics. Every cached layer must be non-empty (`max().unwrap()`) and must hold a counter for every pixel (`data[idx]`). There must be a configured layer for every cached layer (`config.layers[i]`). There must be one LUT of max + 1 entries per cached layer. For an image without pixels the program reaches neither `data[idx]` nor `config.layers[i]`, so it still runs when those two conditions fail; the model does not cover that case.
- `cardioid` (complex square root), `color_cache` (palette gradients), `main`'s command line and control flow, `src/lib.rs` and the programs under `src/bin/` are not part of this model.
