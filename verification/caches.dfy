/** The configuration and the histogram cache of src/cache.rs, which src/main.rs
    duplicates: creating an empty cache for a configuration, deciding whether a
    stored cache may be reused, and the layer equality behind that decision.

    The configuration's per-layer colour is a type parameter: src/cache.rs
    gives each layer one `[u8; 3]` colour and src/main.rs a list of float
    colours, and neither `new`, `load` nor the equality reads it. */
module Caches {
  import opened Wrappers
  import Histograms

  /** The rectangle of the complex plane: x = [re min, re max], y = [im min, im max]. */
  datatype Area = Area(x: (real, real), y: (real, real))

  /** The image size in pixels, one histogram cell per pixel. */
  datatype Dimensions = Dimensions(x: Histograms.u16, y: Histograms.u16)

  /** A configured layer: its iteration threshold and its colour. */
  datatype Layer<C> = Layer(iterations: nat, color: C)

  /** A cached layer: its iteration threshold and one counter per pixel. */
  datatype LayerData = LayerData(iterations: nat, data: seq<nat>)

  datatype Configuration<C> = Configuration(area: Area, dimensions: Dimensions, layers: seq<Layer<C>>)

  /** The cache; `valid` records that its counters have been computed. */
  datatype Cache = Cache(area: Area, dimensions: Dimensions, layers: seq<LayerData>, valid: bool)

  /** `Dimensions::size`: the number of pixels. It is zero exactly when one
      side is empty, and it fits the `u32` pixel index of the colouring. */
  function Size(d: Dimensions): (r: nat)
    ensures r == 0 <==> d.x == 0 || d.y == 0
    ensures r < 0x1_0000_0000
  {
    SizeBound(d.x, d.y);
    d.x * d.y
  }

  lemma SizeBound(x: Histograms.u16, y: Histograms.u16)
    ensures x * y < 0x1_0000_0000
  {
    MulMonotone(x, y, 0xFFFF);
    MulMonotone(0xFFFF, x, 0xFFFF);
  }

  lemma MulMonotone(a: nat, b: nat, c: nat)
    requires b <= c
    ensures a * b <= a * c && b * a <= c * a
  {
  }

  /** Every layer of the cache holds one counter per pixel. */
  predicate WellFormed(c: Cache) {
    forall i :: 0 <= i < |c.layers| ==> |c.layers[i].data| == Size(c.dimensions)
  }

  /** `PartialEq<Layer> for LayerData`: layers are equal when their
      iteration thresholds are; counters and colour are not compared. */
  predicate LayerMatches<C>(d: LayerData, l: Layer<C>) {
    d.iterations == l.iterations
  }

  /** The loop over the zipped layers: false at the first pair that differs. */
  function LayersMatch<C>(ds: seq<LayerData>, ls: seq<Layer<C>>): (r: bool)
    ensures r <==> forall i :: 0 <= i < |ds| && i < |ls| ==> LayerMatches(ds[i], ls[i])
  {
    if |ds| == 0 || |ls| == 0 then true
    else if !LayerMatches(ds[0], ls[0]) then false
    else
      assert forall i :: 1 <= i < |ds| && i < |ls| ==> ds[i] == ds[1..][i - 1] && ls[i] == ls[1..][i - 1];
      LayersMatch(ds[1..], ls[1..])
  }

  /** `PartialEq<Configuration> for Cache`: a cache belongs to a
      configuration when area, dimensions and the number of layers agree
      and each layer has the same iteration threshold. */
  function Matches<C>(c: Cache, config: Configuration<C>): (r: bool)
    ensures r <==> && c.area == config.area
                   && c.dimensions == config.dimensions
                   && |c.layers| == |config.layers|
                   && forall i :: 0 <= i < |c.layers| ==> c.layers[i].iterations == config.layers[i].iterations
  {
    if c.area != config.area || c.dimensions != config.dimensions || |c.layers| != |config.layers| then
      false
    else
      LayersMatch(c.layers, config.layers)
  }

  /** What the equality compares, as plain data: area, dimensions and the
      list of iteration thresholds. */
  datatype Shape = Shape(area: Area, dimensions: Dimensions, iterations: seq<nat>)

  function CacheShape(c: Cache): Shape {
    Shape(c.area, c.dimensions, seq(|c.layers|, i requires 0 <= i < |c.layers| => c.layers[i].iterations))
  }

  function ConfigShape<C>(config: Configuration<C>): Shape {
    Shape(config.area, config.dimensions,
          seq(|config.layers|, i requires 0 <= i < |config.layers| => config.layers[i].iterations))
  }

  /** The layer-by-layer equality is equality of shapes. */
  lemma MatchesIffSameShape<C>(c: Cache, config: Configuration<C>)
    ensures Matches(c, config) <==> CacheShape(c) == ConfigShape(config)
  {
    if CacheShape(c) == ConfigShape(config) {
      forall i | 0 <= i < |c.layers|
        ensures c.layers[i].iterations == config.layers[i].iterations
      {
        assert CacheShape(c).iterations[i] == ConfigShape(config).iterations[i];
      }
    }
  }

  /** `Cache::new`: an empty, not yet valid cache for the configuration,
      with one zeroed counter per pixel in every layer. */
  function New<C>(config: Configuration<C>): (r: Cache)
    ensures Matches(r, config) && WellFormed(r) && !r.valid
    ensures forall i, k :: 0 <= i < |r.layers| && 0 <= k < |r.layers[i].data| ==> r.layers[i].data[k] == 0
  {
    var zeros := seq(Size(config.dimensions), _ => 0);
    Cache(config.area, config.dimensions,
          seq(|config.layers|, i requires 0 <= i < |config.layers| => LayerData(config.layers[i].iterations, zeros)),
          false)
  }

  /** `Cache::load`. The file handling is abstracted into `decoded`: `None`
      when the file cannot be opened or does not decode, else the decoded
      cache. A decoded cache is reused exactly when it matches the
      configuration; otherwise a fresh `New` cache is returned. Either way
      the result matches the configuration, and it is valid only when it
      is the stored cache. */
  function Load<C>(decoded: Option<Cache>, config: Configuration<C>): (r: Cache)
    ensures Matches(r, config)
    ensures decoded.Some? && Matches(decoded.value, config) ==> r == decoded.value
    ensures !(decoded.Some? && Matches(decoded.value, config)) ==> r == New(config)
    ensures r.valid ==> decoded == Some(r)
  {
    match decoded
    case None => New(config)
    case Some(c) => if Matches(c, config) then c else New(config)
  }

  /** Storing what `Load` returned and loading it again gives it back: the
      cache file round trip, with encoding and decoding as the identity. */
  lemma LoadRoundTrip<C>(decoded: Option<Cache>, config: Configuration<C>)
    ensures Load(Some(Load(decoded, config)), config) == Load(decoded, config)
  {
  }

  /** Two configurations that differ only in colours load the same cache.
      This is why the two loaders of src/cache.rs and src/main.rs, whose
      layers carry different colour types, make the same decision. */
  lemma LoadIgnoresColors<C, D>(decoded: Option<Cache>, a: Configuration<C>, b: Configuration<D>)
    requires ConfigShape(a) == ConfigShape(b)
    ensures Load(decoded, a) == Load(decoded, b)
  {
    if decoded.Some? {
      MatchesIffSameShape(decoded.value, a);
      MatchesIffSameShape(decoded.value, b);
    }
    NewIgnoresColors(a, b);
  }

  lemma NewIgnoresColors<C, D>(a: Configuration<C>, b: Configuration<D>)
    requires ConfigShape(a) == ConfigShape(b)
    ensures New(a) == New(b)
  {
    assert |a.layers| == |ConfigShape(a).iterations|;
    forall i | 0 <= i < |a.layers|
      ensures a.layers[i].iterations == b.layers[i].iterations
    {
      assert ConfigShape(a).iterations[i] == ConfigShape(b).iterations[i];
    }
  }

  /** The program's `u8`. */
  type byte = n: nat | n < 0x100

  /** A `[u8; 3]` colour of src/cache.rs: red, green, blue. */
  type Rgb = c: seq<byte> | |c| == 3 witness [0, 0, 0]

  /** The colour with all three channels equal to v. */
  function Gray(v: byte): (c: Rgb)
    ensures forall j :: 0 <= j < 3 ==> c[j] == v
  {
    [v, v, v]
  }

  /** The program's unit tests of this file, over the configuration they
      write: 10 x 5 pixels over [-2, 2] x [-1, 1], thresholds 10 and 1. */
  const TestConfig: Configuration<Rgb> :=
    Configuration(Area((-2.0, 2.0), (-1.0, 1.0)), Dimensions(10, 5),
                  [Layer(10, Gray(100)), Layer(1, Gray(10))])

  /** `layer_equality`: only the thresholds are compared. */
  lemma LayerEquality()
    ensures LayerMatches(LayerData(10, []), Layer(10, Gray(0)))
    ensures !LayerMatches(LayerData(10, []), Layer(1, Gray(0)))
  {
  }

  /** `dimensionality`: 5 x 4 pixels. */
  lemma Dimensionality()
    ensures Size(Dimensions(5, 4)) == 20
  {
  }

  /** `restore_cache`: a new cache is invalid, has both layers, and is
      restored unchanged. */
  lemma RestoreCache()
    ensures !New(TestConfig).valid && |New(TestConfig).layers| == 2
    ensures Load(Some(New(TestConfig)), TestConfig) == New(TestConfig)
  {
  }

  /** `restore_modified_cache`: after the first threshold changes to 100,
      the stored (valid) cache is rejected and a fresh invalid one is
      returned instead. */
  lemma RestoreModifiedCache(stored: Cache, changed: Configuration<Rgb>)
    requires stored == New(TestConfig).(valid := true)
    requires changed == TestConfig.(layers := TestConfig.layers[0 := Layer(100, Gray(100))])
    ensures !Load(Some(stored), changed).valid
    ensures Load(Some(stored), changed) != stored
  {
    assert !Matches(stored, changed) by {
      assert stored.layers[0].iterations == 10;
    }
  }
}
