/** The escape-time orbit of src/mandelbrot.rs, over exact complex numbers.

    The program iterates z := z*z + c from z = 0 and yields each new iterate
    while it stays in the closed disc of radius 2; taking at most N items of
    that iterator gives the orbit truncated to N points. */
module Mandelbrot {
  import opened Wrappers

  /** A complex number as a pair of exact reals. */
  datatype Complex = Complex(re: real, im: real)

  function Add(a: Complex, b: Complex): Complex {
    Complex(a.re + b.re, a.im + b.im)
  }

  function Sub(a: Complex, b: Complex): Complex {
    Complex(a.re - b.re, a.im - b.im)
  }

  /** z*z. For exact reals this is num-complex's product re*re - im*im,
      re*im + im*re with the two equal cross terms collected. */
  function Square(z: Complex): Complex {
    Complex(z.re * z.re - z.im * z.im, 2.0 * z.re * z.im)
  }

  /** The squared modulus |z|^2. */
  function NormSqr(z: Complex): real {
    z.re * z.re + z.im * z.im
  }

  const Origin := Complex(0.0, 0.0)

  /** The fixed escape radius of `mandelbrot`. */
  const Radius: real := 2.0

  /** One step of the iteration. */
  function Step(z: Complex, c: Complex): Complex {
    Add(Square(z), c)
  }

  /** The k-th iterate from `z`: `Step` applied k times. This is the reference
      the iterator below is checked against. */
  function IterFrom(z: Complex, c: Complex, k: nat): Complex
    decreases k
  {
    if k == 0 then z else IterFrom(Step(z, c), c, k - 1)
  }

  /** z_k of the Mandelbrot iteration for `c`, with z_0 = 0. */
  function Iterate(c: Complex, k: nat): Complex {
    IterFrom(Origin, c, k)
  }

  /** `ComplexSequence`: the current iterate, the parameter and the radius. */
  datatype ComplexSequence = ComplexSequence(z: Complex, c: Complex, r: real)

  /** `mandelbrot(c)`: the sequence for `c`, starting at the origin. */
  function MandelbrotSequence(c: Complex): (s: ComplexSequence)
    ensures s.z == Origin && s.c == c && s.r == Radius
  {
    ComplexSequence(Origin, c, Radius)
  }

  /** z lies outside the closed disc of radius r: |z|^2 > r^2. */
  predicate Escapes(z: Complex, r: real) {
    NormSqr(z) > r * r
  }

  /** `ComplexSequence::next`: the state always advances to the next iterate;
      that iterate is yielded unless its squared modulus exceeds r^2. */
  function Next(s: ComplexSequence): (r: (Option<Complex>, ComplexSequence))
    ensures r.1 == ComplexSequence(IterFrom(s.z, s.c, 1), s.c, s.r)
    ensures r.0.Some? <==> !Escapes(r.1.z, s.r)
    ensures r.0.Some? ==> r.0.value == r.1.z
  {
    var next := s.(z := Step(s.z, s.c));
    if Escapes(next.z, s.r) then (None, next) else (Some(next.z), next)
  }

  /** `take(n).collect()` on a sequence: at most n items, ending at the first
      `None`. Every item lies in the closed disc of radius r. */
  function Take(s: ComplexSequence, n: nat): (r: seq<Complex>)
    ensures |r| <= n
    ensures forall k :: 0 <= k < |r| ==> !Escapes(r[k], s.r)
    decreases n
  {
    if n == 0 then []
    else
      var (item, s') := Next(s);
      match item
      case None => []
      case Some(z) => [z] + Take(s', n - 1)
  }

  /** The orbit of `c` truncated to n points, as population collects it. */
  function Orbit(c: Complex, n: nat): (r: seq<Complex>)
    ensures |r| <= n
    ensures forall k :: 0 <= k < |r| ==> !Escapes(r[k], Radius)
  {
    Take(MandelbrotSequence(c), n)
  }

  /** What `Take` collects: the iterates z_1, z_2, ... from the state's z in
      order, and, when it stops short of n, the next iterate has escaped. */
  lemma {:induction false} TakeFollowsIterates(s: ComplexSequence, n: nat)
    ensures forall k :: 0 <= k < |Take(s, n)| ==> Take(s, n)[k] == IterFrom(s.z, s.c, k + 1)
    ensures |Take(s, n)| < n ==> Escapes(IterFrom(s.z, s.c, |Take(s, n)| + 1), s.r)
    decreases n
  {
    if n > 0 {
      var (item, s') := Next(s);
      if item.Some? {
        TakeFollowsIterates(s', n - 1);
        var t := Take(s, n);
        assert t == [item.value] + Take(s', n - 1);
        forall k | 1 <= k < |t|
          ensures t[k] == IterFrom(s.z, s.c, k + 1)
        {
          assert t[k] == Take(s', n - 1)[k - 1];
        }
      }
    }
  }

  /** The orbit of `c` truncated to n is exactly the longest run z_1, ..., z_m
      (m <= n) of iterates that stay in the radius-2 disc: every point is the
      matching iterate and lies in the disc, and a length below n happens only
      when the next iterate escapes. */
  lemma OrbitIsEscapePrefix(c: Complex, n: nat)
    ensures |Orbit(c, n)| <= n
    ensures forall k :: 0 <= k < |Orbit(c, n)| ==>
              Orbit(c, n)[k] == Iterate(c, k + 1) && !Escapes(Iterate(c, k + 1), Radius)
    ensures |Orbit(c, n)| < n ==> Escapes(Iterate(c, |Orbit(c, n)| + 1), Radius)
  {
    TakeFollowsIterates(MandelbrotSequence(c), n);
    forall k | 0 <= k < |Orbit(c, n)|
      ensures Orbit(c, n)[k] == Iterate(c, k + 1) && !Escapes(Iterate(c, k + 1), Radius)
    {
      assert Orbit(c, n)[k] == Iterate(c, k + 1);
    }
  }

  /** A shorter budget collects a prefix of what a longer one collects. */
  lemma {:induction false} TakePrefix(s: ComplexSequence, n: nat, m: nat)
    requires n <= m
    ensures |Take(s, n)| == if |Take(s, m)| < n then |Take(s, m)| else n
    ensures Take(s, n) == Take(s, m)[..|Take(s, n)|]
    decreases n
  {
    if n > 0 {
      var (item, s') := Next(s);
      if item.Some? {
        TakePrefix(s', n - 1, m - 1);
      }
    }
  }

  /** Truncating one orbit at the largest threshold M and comparing its
      length with a layer threshold T <= M decides exactly as computing that
      layer's own orbit with budget T would, and the accepted points are the
      same. This is why population can share one orbit across all layers. */
  lemma SharedBudget(c: Complex, t: nat, m: nat)
    requires t <= m
    ensures |Orbit(c, m)| < t <==> |Orbit(c, t)| < t
    ensures |Orbit(c, m)| < t ==> Orbit(c, m) == Orbit(c, t)
  {
    TakePrefix(MandelbrotSequence(c), t, m);
  }

  /** A state that `Next` leaves unchanged while yielding its own iterate
      never stops: it fills any budget. */
  lemma {:induction false} FixedPointNeverEscapes(s: ComplexSequence, n: nat)
    requires Next(s) == (Some(s.z), s)
    ensures |Take(s, n)| == n
    decreases n
  {
    if n > 0 {
      FixedPointNeverEscapes(s, n - 1);
      assert Take(s, n) == [s.z] + Take(s, n - 1);
    }
  }

  /** The unit test of `mandelbrot` for c = 0: the orbit stays at 0, so it
      uses up any budget, 20 included. */
  lemma OrbitOfZero(c: Complex, n: nat)
    requires c == Origin
    ensures |Orbit(c, n)| == n
  {
    var s := MandelbrotSequence(c);
    ZeroIsFixed(s);
    FixedPointNeverEscapes(s, n);
  }

  /** For c = 0 the origin is a fixed point inside the disc. */
  lemma ZeroIsFixed(s: ComplexSequence)
    requires s == ComplexSequence(Origin, Origin, Radius)
    ensures Next(s) == (Some(s.z), s)
  {
    StepOnAxis(0.0, 0.0);
    EscapesOnAxis(0.0, Radius);
  }

  /** The unit test for c = 3: the first iterate, 3, already escapes. */
  lemma OrbitOfThree(c: Complex, n: nat)
    requires c == Complex(3.0, 0.0)
    ensures Orbit(c, n) == []
  {
    var s := MandelbrotSequence(c);
    if n > 0 {
      StepOnAxis(0.0, 3.0);
      EscapesOnAxis(3.0, Radius);
      TakeStep(s, n);
    }
  }

  /** The unit test for c = 1 with budget 20: the orbit is 1, 2; |2|^2 = 4 is
      not beyond the radius, and the next iterate 5 escapes. */
  lemma OrbitOfOne(c: Complex, n: nat)
    requires c == Complex(1.0, 0.0) && n == 20
    ensures Orbit(c, n) == [Complex(1.0, 0.0), Complex(2.0, 0.0)]
  {
    var s0 := MandelbrotSequence(c);
    var s1 := s0.(z := Complex(1.0, 0.0));
    var s2 := s0.(z := Complex(2.0, 0.0));
    OneFirstStep(s0, n);
    OneSecondStep(s1, n - 1);
    OneThirdStep(s2, n - 2);
    TakeTwo(s0, s1, s2, Complex(1.0, 0.0), Complex(2.0, 0.0), n);
  }

  /** Three one-step unfoldings of `Take` that end in an escape give a
      two-point orbit. */
  lemma TakeTwo(s0: ComplexSequence, s1: ComplexSequence, s2: ComplexSequence, a: Complex, b: Complex, n: nat)
    requires n >= 2
    requires Take(s0, n) == [a] + Take(s1, n - 1)
    requires Take(s1, n - 1) == [b] + Take(s2, n - 2)
    requires Take(s2, n - 2) == []
    ensures Take(s0, n) == [a, b]
  {
  }

  /** For c = 1: from 0 the iterate 1 stays in the disc. */
  lemma OneFirstStep(s: ComplexSequence, n: nat)
    requires n > 0 && s == ComplexSequence(Origin, Complex(1.0, 0.0), Radius)
    ensures Take(s, n) == [Complex(1.0, 0.0)] + Take(s.(z := Complex(1.0, 0.0)), n - 1)
  {
    FirstStep(s, n);
    EscapesOnAxis(1.0, Radius);
  }

  /** From the origin the first iterate is c itself. */
  lemma FirstStep(s: ComplexSequence, n: nat)
    requires n > 0 && s.z == Origin
    ensures Escapes(s.c, s.r) ==> Take(s, n) == []
    ensures !Escapes(s.c, s.r) ==> Take(s, n) == [s.c] + Take(s.(z := s.c), n - 1)
  {
    ZeroFactor(0.0, 0.0);
    TakeStep(s, n);
  }

  /** For c = 1: from 1 the iterate 2 is on the circle, so it is kept. */
  lemma OneSecondStep(s: ComplexSequence, n: nat)
    requires n > 0 && s == ComplexSequence(Complex(1.0, 0.0), Complex(1.0, 0.0), Radius)
    ensures Take(s, n) == [Complex(2.0, 0.0)] + Take(s.(z := Complex(2.0, 0.0)), n - 1)
  {
    AxisStep(s, 1.0, 1.0, 2.0, n);
  }

  /** For c = 1: from 2 the iterate 5 escapes and the orbit ends. */
  lemma OneThirdStep(s: ComplexSequence, n: nat)
    requires n > 0 && s == ComplexSequence(Complex(2.0, 0.0), Complex(1.0, 0.0), Radius)
    ensures Take(s, n) == []
  {
    AxisStep(s, 2.0, 1.0, 5.0, n);
  }

  /** One unfolding of `Take` on the real axis, where the next iterate is
      w = x*x + c: it stops when w*w > 4 and otherwise yields w. */
  lemma AxisStep(s: ComplexSequence, x: real, c: real, w: real, n: nat)
    requires n > 0 && s == ComplexSequence(Complex(x, 0.0), Complex(c, 0.0), Radius)
    requires w == x * x + c
    ensures w * w > 4.0 ==> Take(s, n) == []
    ensures w * w <= 4.0 ==> Take(s, n) == [Complex(w, 0.0)] + Take(s.(z := Complex(w, 0.0)), n - 1)
  {
    StepOnAxis(x, c);
    EscapesOnAxis(w, Radius);
    TakeStep(s, n);
  }

  /** A zero factor makes a product zero. */
  lemma ZeroFactor(a: real, b: real)
    requires a == 0.0
    ensures a * b == 0.0 && b * a == 0.0
  {
  }

  /** On the real axis the iteration is the real map x := x*x + c. */
  lemma StepOnAxis(x: real, c: real)
    ensures Step(Complex(x, 0.0), Complex(c, 0.0)) == Complex(x * x + c, 0.0)
  {
    ZeroFactor(0.0, x);
  }

  /** On the real axis, escaping means x*x > r*r. */
  lemma EscapesOnAxis(x: real, r: real)
    ensures Escapes(Complex(x, 0.0), r) <==> x * x > r * r
  {
    ZeroFactor(0.0, 0.0);
  }

  /** One unfolding of `Take`, for a state whose next item is known. */
  lemma TakeStep(s: ComplexSequence, n: nat)
    requires n > 0
    ensures Next(s).0.None? ==> Take(s, n) == []
    ensures Next(s).0.Some? ==> Take(s, n) == [Next(s).0.value] + Take(Next(s).1, n - 1)
  {
  }

  /** `first_bulb`: c lies strictly inside the circle of radius 1/4 around
      -1, the period-two bulb of the Mandelbrot set. Such a c lies in the box
      (-1.25, -0.75) x (-0.25, 0.25). */
  function FirstBulb(c: Complex): (r: bool)
    ensures r ==> -1.25 < c.re < -0.75 && -0.25 < c.im < 0.25
  {
    NormSqr(Sub(c, Complex(-1.0, 0.0))) < 0.0625
  }

  /** The unit tests of `first_bulb`. */
  lemma FirstBulbExamples()
    ensures !FirstBulb(Origin)
    ensures FirstBulb(Complex(-1.24, 0.0))
    ensures FirstBulb(Complex(-0.76, 0.0))
    ensures FirstBulb(Complex(-1.0, 0.24))
  {
  }
}
