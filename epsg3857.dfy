/**
 * Spherical Web Mercator (EPSG:3857): its constants, the seven codes that
 * name it, the per-point resolution rule, and the two strided buffer
 * transforms between geographic degrees (EPSG:4326) and projected metres.
 */
module EPSG3857 {
  import opened Transcendental

  /** An optional argument, `undefined` when absent. */
  datatype Option<T> = None | Some(value: T)

  // ---------------------------------------------------------------------
  // Constants

  /** Radius of the WGS84 sphere, in metres. */
  const RADIUS: real := 6378137.0

  /**
   * Half the width of the projected world, pi times the radius, written out
   * as the exact product so that formulas using it stay linear.
   */
  const HALF_SIZE: real := 20037508.342789242295491902723370003513991832733154296875

  /** An axis-aligned rectangle `[minX, minY, maxX, maxY]`. */
  datatype Extent = Extent(minX: real, minY: real, maxX: real, maxY: real)
  {
    predicate ContainsXY(x: real, y: real) {
      minX <= x <= maxX && minY <= y <= maxY
    }
  }

  /** The projected extent: the square of half-side HALF_SIZE around the origin. */
  const EXTENT: Extent := Extent(-HALF_SIZE, -HALF_SIZE, HALF_SIZE, HALF_SIZE)

  /** The geographic extent in which the projection is meaningful. */
  const WORLD_EXTENT: Extent := Extent(-180.0, -85.0, 180.0, 85.0)

  lemma ExtentIsCentredSquare()
    ensures HALF_SIZE == PI * RADIUS && HALF_SIZE > 0.0
    ensures EXTENT.minX < EXTENT.maxX && EXTENT.minY < EXTENT.maxY
    ensures EXTENT.maxX - EXTENT.minX == EXTENT.maxY - EXTENT.minY == 2.0 * PI * RADIUS
    ensures EXTENT.minX == -EXTENT.maxX && EXTENT.minY == -EXTENT.maxY
    ensures WORLD_EXTENT.minX < WORLD_EXTENT.maxX && WORLD_EXTENT.minY < WORLD_EXTENT.maxY
  {
  }

  // ---------------------------------------------------------------------
  // Projection descriptors

  datatype Units = Metres

  /**
   * What each alias hands to the generic projection abstraction: its code,
   * units, extent, global flag and world extent. The point-resolution
   * callback is the same for every alias and is `PointResolution` below.
   */
  datatype Projection = Projection(
    code: string,
    units: Units,
    extent: Extent,
    global: bool,
    worldExtent: Extent)

  /** The descriptor built for one code. */
  function Epsg3857Projection(code: string): Projection {
    Projection(code, Metres, EXTENT, true, WORLD_EXTENT)
  }

  /** The projections equal to EPSG:3857, one per accepted code. */
  const PROJECTIONS: seq<Projection> := [
    Epsg3857Projection("EPSG:3857"),
    Epsg3857Projection("EPSG:102100"),
    Epsg3857Projection("EPSG:102113"),
    Epsg3857Projection("EPSG:900913"),
    Epsg3857Projection("urn:ogc:def:crs:EPSG:6.18:3:3857"),
    Epsg3857Projection("urn:ogc:def:crs:EPSG::3857"),
    Epsg3857Projection("http://www.opengis.net/gml/srs/epsg.xml#3857")
  ]

  /**
   * The alias list has seven entries with pairwise distinct codes, all
   * alike apart from the code: metres, EXTENT, global, WORLD_EXTENT.
   */
  lemma ProjectionsAreAliases()
    ensures |PROJECTIONS| == 7
    ensures forall i, j :: 0 <= i < j < |PROJECTIONS| ==> PROJECTIONS[i].code != PROJECTIONS[j].code
    ensures forall i :: 0 <= i < |PROJECTIONS| ==>
      PROJECTIONS[i] == PROJECTIONS[0].(code := PROJECTIONS[i].code)
    ensures forall p :: p in PROJECTIONS ==>
      p.units == Metres && p.extent == EXTENT && p.global && p.worldExtent == WORLD_EXTENT
  {
  }

  /**
   * `getPointResolution`: the resolution divided by cosh of the northing
   * over the radius.
   */
  function PointResolution(m: MathLib, resolution: real, point: seq<real>): (r: real)
    requires m.Valid() && |point| >= 2
    ensures point[1] == 0.0 ==> r == resolution
    ensures resolution >= 0.0 ==> 0.0 <= r <= resolution
    ensures resolution <= 0.0 ==> resolution <= r <= 0.0
  {
    var c := m.cosh(point[1] / RADIUS);
    assert c >= 1.0;
    resolution / c
  }

  // ---------------------------------------------------------------------
  // Per-coordinate formulas

  /** Longitude in degrees to easting in metres. */
  function ForwardEasting(lon: real): (x: real)
    ensures -180.0 <= lon <= 180.0 ==> -HALF_SIZE <= x <= HALF_SIZE
  {
    HALF_SIZE * lon / 180.0
  }

  /** Easting in metres to longitude in degrees. */
  function InverseEasting(x: real): (lon: real)
    ensures -HALF_SIZE <= x <= HALF_SIZE ==> -180.0 <= lon <= 180.0
  {
    180.0 * x / HALF_SIZE
  }

  lemma EastingRoundTrip(lon: real, x: real)
    ensures InverseEasting(ForwardEasting(lon)) == lon
    ensures ForwardEasting(InverseEasting(x)) == x
  {
  }

  /** The easting is strictly increasing and maps [-180, 180] onto [-HALF_SIZE, HALF_SIZE]. */
  lemma EastingSpansExtent(a: real, b: real)
    ensures a < b ==> ForwardEasting(a) < ForwardEasting(b)
    ensures ForwardEasting(0.0) == 0.0
    ensures ForwardEasting(WORLD_EXTENT.minX) == EXTENT.minX
    ensures ForwardEasting(WORLD_EXTENT.maxX) == EXTENT.maxX
  {
  }

  /** The northing before clamping: R ln(tan(pi (lat + 90) / 360)). */
  function RawNorthing(m: MathLib, lat: real): real {
    RADIUS * m.log(m.tan(PI * (lat + 90.0) / 360.0))
  }

  /** Bring a northing into [-HALF_SIZE, HALF_SIZE]. */
  function ClampNorthing(y: real): (r: real)
    ensures -HALF_SIZE <= r <= HALF_SIZE
  {
    if y > HALF_SIZE then HALF_SIZE
    else if y < -HALF_SIZE then -HALF_SIZE
    else y
  }

  /**
   * The clamp leaves an in-range northing alone and otherwise yields the
   * bound nearest to it: of all values in range it is the closest to `y`.
   */
  lemma ClampIsNearest(y: real, z: real)
    ensures -HALF_SIZE <= y <= HALF_SIZE ==> ClampNorthing(y) == y
    ensures y > HALF_SIZE ==> ClampNorthing(y) == HALF_SIZE
    ensures y < -HALF_SIZE ==> ClampNorthing(y) == -HALF_SIZE
    ensures -HALF_SIZE <= z <= HALF_SIZE ==> Dist(ClampNorthing(y), y) <= Dist(z, y)
    ensures ClampNorthing(ClampNorthing(y)) == ClampNorthing(y)
  {
  }

  function Dist(a: real, b: real): real {
    if a < b then b - a else a - b
  }

  /** Latitude in degrees to clamped northing in metres. */
  function ForwardNorthing(m: MathLib, lat: real): (y: real)
    ensures -HALF_SIZE <= y <= HALF_SIZE
  {
    ClampNorthing(RawNorthing(m, lat))
  }

  /** Northing in metres to latitude in degrees; no clamp in this direction. */
  function InverseNorthing(m: MathLib, y: real): real {
    360.0 * m.atan(m.exp(y / RADIUS)) / PI - 90.0
  }

  /** A point of the world's longitudes, at any latitude, projects into EXTENT. */
  lemma ForwardPointInExtent(m: MathLib, lon: real, lat: real)
    requires WORLD_EXTENT.minX <= lon <= WORLD_EXTENT.maxX
    ensures EXTENT.ContainsXY(ForwardEasting(lon), ForwardNorthing(m, lat))
  {
  }

  // ---------------------------------------------------------------------
  // Strided buffers

  /** `opt_dimension > 1 ? opt_dimension : 2`, where `undefined > 1` is false. */
  function EffectiveDimension(optDimension: Option<int>): (d: int)
    ensures d >= 2
    ensures optDimension.Some? && optDimension.value > 1 ==> d == optDimension.value
    ensures !(optDimension.Some? && optDimension.value > 1) ==> d == 2
  {
    if optDimension.Some? && optDimension.value > 1 then optDimension.value else 2
  }

  /**
   * Position of buffer slot `k` inside its tuple of `d` values (`k % d`,
   * see TupleOffsetIsMod), counted off one tuple at a time.
   */
  function TupleOffset(k: nat, d: nat): (r: nat)
    requires d > 0
    ensures r < d
    decreases k
  {
    if k < d then k else TupleOffset(k - d, d)
  }

  lemma {:induction false} TupleOffsetIsMod(k: nat, d: nat)
    requires d > 0
    ensures TupleOffset(k, d) == k % d
  {
    if k >= d {
      TupleOffsetIsMod(k - d, d);
      DivUnique(k, d, (k - d) / d + 1, (k - d) % d);
    }
  }

  /** Euclidean division has a unique quotient and remainder. */
  lemma DivUnique(a: int, d: int, q: int, r: int)
    requires d > 0 && a == q * d + r && 0 <= r < d
    ensures a / d == q && a % d == r
  {
    var q', r' := a / d, a % d;
    assert a == q' * d + r';
    assert (q - q') * d == r' - r;
    if q > q' {
      MulAtLeast(q - q', d);
    } else if q < q' {
      MulAtLeast(q' - q, d);
    }
  }

  lemma MulAtLeast(n: int, d: int)
    requires n >= 1 && d > 0
    ensures n * d >= d
  {
  }

  /**
   * Inside the tuple starting at `i`, the offset of `k` is its distance
   * from `i`, and the next tuple starts at `i + d`.
   */
  lemma {:induction false} StrideOffsets(i: nat, d: nat)
    requires d > 0 && TupleOffset(i, d) == 0
    ensures forall k: nat :: i <= k < i + d ==> TupleOffset(k, d) == k - i
    ensures TupleOffset(i + d, d) == 0
  {
    if i >= d {
      StrideOffsets(i - d, d);
    }
  }

  /**
   * The loop writes `output[i + 1]` only inside the buffer: when a tuple
   * starts before `length`, so does its second slot, as long as the last
   * tuple is not a lone value.
   */
  lemma SecondSlotInBounds(i: nat, d: nat, length: nat)
    requires d >= 2 && i < length && TupleOffset(i, d) == 0 && TupleOffset(length, d) != 1
    ensures i + 1 < length
  {
    StrideOffsets(i, d);
  }

  /**
   * Slot `k` of a transformed buffer: the first two slots of every tuple
   * lying inside the input are computed from the input slot at the same
   * index; every other slot keeps the value it had in `base`.
   */
  function StrideAt(inp: seq<real>, base: seq<real>, d: nat,
                    east: real -> real, north: real -> real, k: nat): real
    requires d >= 2 && k < |base|
  {
    if k < |inp| && TupleOffset(k, d) == 0 then east(inp[k])
    else if k < |inp| && TupleOffset(k, d) == 1 then north(inp[k])
    else base[k]
  }

  /** The whole buffer after a transform, starting from output contents `base`. */
  function StrideMap(inp: seq<real>, base: seq<real>, d: nat,
                     east: real -> real, north: real -> real): (r: seq<real>)
    requires d >= 2 && |inp| <= |base|
    ensures |r| == |base|
  {
    seq(|base|, k requires 0 <= k < |base| => StrideAt(inp, base, d, east, north, k))
  }

  /** The output of `fromEPSG4326` on input `inp`, output contents `base`, stride `d`. */
  function ForwardBuffer(m: MathLib, inp: seq<real>, base: seq<real>, d: nat): (r: seq<real>)
    requires d >= 2 && |inp| <= |base|
    ensures |r| == |base|
  {
    StrideMap(inp, base, d, ForwardEasting, (lat: real) => ForwardNorthing(m, lat))
  }

  /** The output of `toEPSG4326` on input `inp`, output contents `base`, stride `d`. */
  function InverseBuffer(m: MathLib, inp: seq<real>, base: seq<real>, d: nat): (r: seq<real>)
    requires d >= 2 && |inp| <= |base|
    ensures |r| == |base|
  {
    StrideMap(inp, base, d, InverseEasting, (y: real) => InverseNorthing(m, y))
  }

  /** `out` holds the transformed slots below `i` and the `base` slots from `i` on. */
  ghost predicate DoneBelow(out: seq<real>, inp: seq<real>, base: seq<real>, d: nat,
                            east: real -> real, north: real -> real, i: nat)
    requires d >= 2
  {
    |out| == |base| &&
    forall k: nat :: k < |out| ==>
      out[k] == if k < i then StrideAt(inp, base, d, east, north, k) else base[k]
  }

  /** One pass of the loop body moves the written prefix on by a whole tuple. */
  lemma StrideStep(out: seq<real>, inp: seq<real>, base: seq<real>, d: nat,
                   east: real -> real, north: real -> real, i: nat)
    requires d >= 2 && TupleOffset(i, d) == 0 && i + 1 < |inp| <= |base|
    requires DoneBelow(out, inp, base, d, east, north, i)
    ensures DoneBelow(out[i := east(inp[i])][i + 1 := north(inp[i + 1])], inp, base, d, east, north, i + d)
    ensures TupleOffset(i + d, d) == 0
  {
    StrideOffsets(i, d);
    var next := out[i := east(inp[i])][i + 1 := north(inp[i + 1])];
    forall k: nat | k < |next|
      ensures next[k] == if k < i + d then StrideAt(inp, base, d, east, north, k) else base[k]
    {
      if i <= k < i + d {
        assert TupleOffset(k, d) == k - i;
      }
    }
  }

  /** Once the prefix covers the whole input, the buffer is the transformed one. */
  lemma DoneIsStrideMap(out: seq<real>, inp: seq<real>, base: seq<real>, d: nat,
                        east: real -> real, north: real -> real, i: nat)
    requires d >= 2 && |inp| <= i && |inp| <= |base|
    requires DoneBelow(out, inp, base, d, east, north, i)
    ensures out == StrideMap(inp, base, d, east, north)
  {
    var r := StrideMap(inp, base, d, east, north);
    forall k | 0 <= k < |out|
      ensures out[k] == r[k]
    {
    }
  }

  /** Only the first two slots of tuples inside the input are written. */
  lemma StrideMapFrame(inp: seq<real>, base: seq<real>, d: nat,
                       east: real -> real, north: real -> real, k: nat)
    requires d >= 2 && |inp| <= |base| && k < |base|
    ensures k < |inp| && k % d == 0 ==> StrideMap(inp, base, d, east, north)[k] == east(inp[k])
    ensures k < |inp| && k % d == 1 ==> StrideMap(inp, base, d, east, north)[k] == north(inp[k])
    ensures (k >= |inp| || k % d >= 2) ==> StrideMap(inp, base, d, east, north)[k] == base[k]
  {
    TupleOffsetIsMod(k, d);
  }

  /** With stride 2 and an even length every slot is written, so `base` does not matter. */
  lemma FullStrideIgnoresBase(inp: seq<real>, b1: seq<real>, b2: seq<real>,
                              east: real -> real, north: real -> real)
    requires |inp| % 2 == 0 && |b1| == |inp| && |b2| == |inp|
    ensures StrideMap(inp, b1, 2, east, north) == StrideMap(inp, b2, 2, east, north)
  {
    var r1, r2 := StrideMap(inp, b1, 2, east, north), StrideMap(inp, b2, 2, east, north);
    forall k | 0 <= k < |inp|
      ensures r1[k] == r2[k]
    {
      assert TupleOffset(k, 2) < 2;
    }
  }

  /** Every northing slot the forward transform produces lies in [-HALF_SIZE, HALF_SIZE]. */
  lemma ForwardNorthingsBounded(m: MathLib, inp: seq<real>, base: seq<real>, d: nat, k: nat)
    requires d >= 2 && |inp| <= |base| && k < |inp| && k % d == 1
    ensures -HALF_SIZE <= ForwardBuffer(m, inp, base, d)[k] <= HALF_SIZE
  {
    StrideMapFrame(inp, base, d, ForwardEasting, (lat: real) => ForwardNorthing(m, lat), k);
  }

  /**
   * Forward then inverse, each allocating its own output, gives back every
   * easting and every auxiliary slot exactly, and the northing slots pass
   * through the two latitude formulas.
   */
  lemma BufferRoundTrip(m: MathLib, inp: seq<real>, d: nat)
    requires d >= 2
    ensures var fwd := ForwardBuffer(m, inp, inp, d);
            var back := InverseBuffer(m, fwd, fwd, d);
            |back| == |inp| &&
            forall k :: 0 <= k < |inp| ==>
              back[k] == (if k % d == 1 then InverseNorthing(m, ForwardNorthing(m, inp[k])) else inp[k])
  {
    var fwd := ForwardBuffer(m, inp, inp, d);
    var back := InverseBuffer(m, fwd, fwd, d);
    forall k | 0 <= k < |inp|
      ensures back[k] == (if k % d == 1 then InverseNorthing(m, ForwardNorthing(m, inp[k])) else inp[k])
    {
      StrideMapFrame(inp, inp, d, ForwardEasting, (lat: real) => ForwardNorthing(m, lat), k);
      StrideMapFrame(fwd, fwd, d, InverseEasting, (y: real) => InverseNorthing(m, y), k);
      EastingRoundTrip(inp[k], 0.0);
    }
  }

  /** The three-dimensional case: the third value of a point passes through both ways. */
  lemma ThirdDimensionPassesThrough(m: MathLib, lon: real, lat: real, z: real)
    ensures ForwardBuffer(m, [lon, lat, z], [lon, lat, z], 3)
            == [ForwardEasting(lon), ForwardNorthing(m, lat), z]
    ensures InverseBuffer(m, [lon, lat, z], [lon, lat, z], 3)
            == [InverseEasting(lon), InverseNorthing(m, lat), z]
  {
  }

  /** `input.slice()`: a fresh array with the same contents. */
  method CopyOf(a: array<real>) returns (b: array<real>)
    ensures fresh(b) && b[..] == a[..]
  {
    b := new real[a.Length];
    forall k | 0 <= k < a.Length {
      b[k] := a[k];
    }
  }

  /** The set of arrays a transform may write: the caller's output, if any. */
  function OutputFrame(optOutput: Option<array<real>>): set<array<real>> {
    if optOutput.Some? then {optOutput.value} else {}
  }

  /**
   * The output buffer a transform writes into: the caller's, else a copy
   * of the input when tuples carry values beyond the second dimension, else
   * a new array of the input's length (every slot of which gets written).
   */
  method OutputBuffer(input: array<real>, optOutput: Option<array<real>>, dimension: int)
    returns (output: array<real>)
    ensures optOutput.Some? ==> output == optOutput.value
    ensures optOutput.None? ==> fresh(output) && output.Length == input.Length
    ensures optOutput.None? && dimension > 2 ==> output[..] == input[..]
  {
    if optOutput.Some? {
      output := optOutput.value;
    } else if dimension > 2 {
      // keep the values beyond the second dimension
      output := CopyOf(input);
    } else {
      output := new real[input.Length];
    }
  }

  /**
   * The loop of `fromEPSG4326`: every tuple's easting and clamped northing
   * are written into `output`, which may be `input` itself.
   */
  method ForwardLoop(m: MathLib, input: array<real>, output: array<real>, dimension: nat)
    requires dimension >= 2 && input.Length % dimension != 1
    requires output.Length >= input.Length
    modifies output
    ensures output[..] == ForwardBuffer(m, old(input[..]), old(output[..]), dimension)
  {
    var length := input.Length;
    ghost var inp, base := input[..], output[..];
    TupleOffsetIsMod(length, dimension);
    ghost var north := (lat: real) => ForwardNorthing(m, lat);
    var i: nat := 0;
    while i < length
      invariant TupleOffset(i, dimension) == 0
      invariant output.Length == |base|
      invariant DoneBelow(output[..], inp, base, dimension, ForwardEasting, north, i)
      invariant forall k :: i <= k < length ==> input[k] == inp[k]
    {
      SecondSlotInBounds(i, dimension, length);
      StrideStep(output[..], inp, base, dimension, ForwardEasting, north, i);
      assert input[i] == inp[i] && input[i + 1] == inp[i + 1];
      ghost var before := output[..];
      output[i] := ForwardEasting(input[i]);
      var y := RawNorthing(m, input[i + 1]);
      if y > HALF_SIZE {
        y := HALF_SIZE;
      } else if y < -HALF_SIZE {
        y := -HALF_SIZE;
      }
      assert y == ClampNorthing(RawNorthing(m, inp[i + 1]));
      output[i + 1] := y;
      assert output[..] == before[i := ForwardEasting(inp[i])][i + 1 := north(inp[i + 1])];
      i := i + dimension;
    }
    DoneIsStrideMap(output[..], inp, base, dimension, ForwardEasting, north, i);
  }

  /** The loop of `toEPSG4326`: easting and northing of every tuple, unclamped. */
  method InverseLoop(m: MathLib, input: array<real>, output: array<real>, dimension: nat)
    requires dimension >= 2 && input.Length % dimension != 1
    requires output.Length >= input.Length
    modifies output
    ensures output[..] == InverseBuffer(m, old(input[..]), old(output[..]), dimension)
  {
    var length := input.Length;
    ghost var inp, base := input[..], output[..];
    TupleOffsetIsMod(length, dimension);
    ghost var north := (y: real) => InverseNorthing(m, y);
    var i: nat := 0;
    while i < length
      invariant TupleOffset(i, dimension) == 0
      invariant output.Length == |base|
      invariant DoneBelow(output[..], inp, base, dimension, InverseEasting, north, i)
      invariant forall k :: i <= k < length ==> input[k] == inp[k]
    {
      SecondSlotInBounds(i, dimension, length);
      StrideStep(output[..], inp, base, dimension, InverseEasting, north, i);
      assert input[i] == inp[i] && input[i + 1] == inp[i + 1];
      ghost var before := output[..];
      output[i] := InverseEasting(input[i]);
      var lat := InverseNorthing(m, input[i + 1]);
      assert lat == north(inp[i + 1]);
      output[i + 1] := lat;
      assert output[..] == before[i := InverseEasting(inp[i])][i + 1 := north(inp[i + 1])];
      i := i + dimension;
    }
    DoneIsStrideMap(output[..], inp, base, dimension, InverseEasting, north, i);
  }

  /**
   * `fromEPSG4326`. A caller-supplied output (possibly the input itself)
   * is updated in place and returned; otherwise the result is a fresh
   * array as long as the input, holding the input with every tuple's first
   * two slots projected.
   */
  method FromEPSG4326(m: MathLib, input: array<real>, optOutput: Option<array<real>>,
                      optDimension: Option<int>)
    returns (output: array<real>)
    requires input.Length % EffectiveDimension(optDimension) != 1
    requires optOutput.Some? ==> optOutput.value.Length >= input.Length
    modifies OutputFrame(optOutput)
    ensures optOutput.Some? ==>
      output == optOutput.value &&
      output[..] == ForwardBuffer(m, old(input[..]), old(output[..]), EffectiveDimension(optDimension))
    ensures optOutput.None? ==>
      fresh(output) && input[..] == old(input[..]) &&
      output[..] == ForwardBuffer(m, input[..], input[..], EffectiveDimension(optDimension))
    ensures forall k :: 0 <= k < input.Length && k % EffectiveDimension(optDimension) == 1 ==>
      -HALF_SIZE <= output[k] <= HALF_SIZE
  {
    var dimension := EffectiveDimension(optDimension);
    ghost var inp := input[..];
    output := OutputBuffer(input, optOutput, dimension);
    ghost var base := output[..];
    ForwardLoop(m, input, output, dimension);
    if optOutput.None? && dimension == 2 {
      FullStrideIgnoresBase(inp, base, inp, ForwardEasting, (lat: real) => ForwardNorthing(m, lat));
    }
    forall k | 0 <= k < input.Length && k % dimension == 1
      ensures -HALF_SIZE <= output[k] <= HALF_SIZE
    {
      ForwardNorthingsBounded(m, inp, base, dimension, k);
    }
  }

  /** `toEPSG4326`, with the same output rule as `FromEPSG4326`. */
  method ToEPSG4326(m: MathLib, input: array<real>, optOutput: Option<array<real>>,
                    optDimension: Option<int>)
    returns (output: array<real>)
    requires input.Length % EffectiveDimension(optDimension) != 1
    requires optOutput.Some? ==> optOutput.value.Length >= input.Length
    modifies OutputFrame(optOutput)
    ensures optOutput.Some? ==>
      output == optOutput.value &&
      output[..] == InverseBuffer(m, old(input[..]), old(output[..]), EffectiveDimension(optDimension))
    ensures optOutput.None? ==>
      fresh(output) && input[..] == old(input[..]) &&
      output[..] == InverseBuffer(m, input[..], input[..], EffectiveDimension(optDimension))
  {
    var dimension := EffectiveDimension(optDimension);
    ghost var inp := input[..];
    output := OutputBuffer(input, optOutput, dimension);
    ghost var base := output[..];
    InverseLoop(m, input, output, dimension);
    if optOutput.None? && dimension == 2 {
      FullStrideIgnoresBase(inp, base, inp, InverseEasting, (y: real) => InverseNorthing(m, y));
    }
  }
}
