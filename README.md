# Spherical Web Mercator (EPSG:3857)

A Dafny model of OpenLayers' `ol/proj/EPSG3857` module: the spherical
Web-Mercator projection on a sphere of radius 6378137 m. The model covers

- the constants `RADIUS`, `HALF_SIZE` (pi times the radius), the square
  projected `EXTENT` and the geographic `WORLD_EXTENT`;
- the seven `PROJECTIONS` that all name EPSG:3857, as plain descriptor
  records (code, units, extent, global flag, world extent), and the
  `getPointResolution` rule they all share;
- the per-coordinate formulas: easting scaling both ways, the forward
  northing `R ln(tan(pi (lat + 90) / 360))` with its clamp into
  `[-HALF_SIZE, HALF_SIZE]`, and the inverse northing
  `360 atan(exp(y / R)) / pi - 90`;
- the strided buffer transforms `fromEPSG4326` and `toEPSG4326` as methods
  over `array<real>`. They pick the effective dimension. They use the
  caller's output buffer, or copy the input, or allocate a new array. They
  walk the buffer one tuple at a time and write only the first two slots
  of each tuple.

Files:

- `math.dfy`, module `Transcendental`: `Math.PI` and the routines
  `Math.log`, `Math.tan`, `Math.atan`, `Math.exp` and `cosh` (from
  `ol/math`). The routines are handed to the projection as a `MathLib`
  value of total functions on the reals. Only what `MathLib.Valid` states
  is assumed of them: `cosh(0) = 1` and `cosh(x) >= 1`.
- `epsg3857.dfy`, module `EPSG3857`: everything else.

How the buffers are specified. `StrideMap(inp, base, d, east, north)` is
the buffer a transform leaves behind. `inp` is the input, `base` is what
the output held before the loop, `d` is the stride, and `east` and `north`
are the per-slot formulas. Slot `k` becomes `east(inp[k])` when `k` is the
first slot of a tuple inside the input. It becomes `north(inp[k])` when `k`
is the second slot. Otherwise it keeps `base[k]`. `ForwardBuffer` and
`InverseBuffer` instantiate it with the two directions' formulas. Each
JavaScript function is split in two: `OutputBuffer` chooses the
destination, and `ForwardLoop` or `InverseLoop` runs the loop. Both
directions share `StrideMap`. The methods accept an output buffer that is
the input itself (an in-place transform).

The buffer length need not be a multiple of the stride. The code goes
wrong only when the last tuple holds a single value. Then it reads
`input[length]`, which is undefined, and writes a value derived from it to
`output[length]`. That grows an output of the input's length, and it
overwrites a slot of a longer caller-supplied output. So the model requires
`length % d != 1`. A final partial tuple of two or more values gets its
first two slots transformed, as in the code.

## Model

| member | source | states |
|---|---|---|
| EPSG3857.ExtentIsCentredSquare | src/ol/proj/EPSG3857.js:41-65 | `HALF_SIZE` equals pi times `RADIUS` and is positive. `EXTENT` is a square centred on the origin with min < max on both axes and side `2 pi R`. `WORLD_EXTENT` has min < max on both axes. |
| EPSG3857.ProjectionsAreAliases | src/ol/proj/EPSG3857.js:20-82 | `PROJECTIONS` has seven entries with pairwise distinct codes. Every entry equals the first one with its own code put in. All have units metres, extent `EXTENT`, `global` true and world extent `WORLD_EXTENT`. |
| EPSG3857.PointResolution | src/ol/proj/EPSG3857.js:27-29 | `resolution / cosh(point[1] / RADIUS)` equals the resolution on the equator (`point[1] = 0`). It never has a larger magnitude than the resolution and keeps its sign. |
| EPSG3857.Epsg3857Projection | src/ol/proj/EPSG3857.js:20-31 | No contract of its own. It builds the record each alias passes to the projection abstraction: the code, metres, `EXTENT`, global, `WORLD_EXTENT`. The constant `PROJECTIONS` applies it to the seven codes of lines 74-82, and `ProjectionsAreAliases` states what the list satisfies. |
| EPSG3857.ForwardEasting | src/ol/proj/EPSG3857.js:107 | The easting `HALF_SIZE lon / 180` of a longitude inside [-180, 180] lies inside [-HALF_SIZE, HALF_SIZE]. |
| EPSG3857.InverseEasting | src/ol/proj/EPSG3857.js:142 | The longitude `180 x / HALF_SIZE` of an easting inside [-HALF_SIZE, HALF_SIZE] lies inside [-180, 180]. |
| EPSG3857.RawNorthing | src/ol/proj/EPSG3857.js:108-109 | No contract: the unclamped northing `RADIUS log(tan(PI (lat + 90) / 360))` over the supplied routines. Nothing can be promised about it without properties of `log` and `tan`. |
| EPSG3857.InverseNorthing | src/ol/proj/EPSG3857.js:143-144 | No contract: the latitude `360 atan(exp(y / RADIUS)) / PI - 90` over the supplied routines, with no clamp. Nothing can be promised about it without properties of `atan` and `exp`. |
| EPSG3857.EastingRoundTrip | src/ol/proj/EPSG3857.js:142 | The inverse easting `180 x / HALF_SIZE` undoes the forward easting `HALF_SIZE x / 180` exactly, and the other way round. |
| EPSG3857.EastingSpansExtent | src/ol/proj/EPSG3857.js:107 | The forward easting is strictly increasing and sends longitude 0 to 0. It sends the world extent's west and east edges to the projected extent's west and east edges. |
| EPSG3857.ClampNorthing | src/ol/proj/EPSG3857.js:110-114 | The clamped northing always lies in `[-HALF_SIZE, HALF_SIZE]`. |
| EPSG3857.ClampIsNearest | src/ol/proj/EPSG3857.js:110-114 | The clamp is the identity on in-range values and gives the nearer bound otherwise. Of all in-range values it is the closest to its argument, and clamping twice is clamping once. |
| EPSG3857.ForwardNorthing | src/ol/proj/EPSG3857.js:108-115 | The forward northing written for any latitude lies in `[-HALF_SIZE, HALF_SIZE]`, whatever the transcendental routines return. |
| EPSG3857.ForwardPointInExtent | src/ol/proj/EPSG3857.js:106-115 | A point whose longitude is inside the world extent projects into `EXTENT`, at any latitude. |
| EPSG3857.EffectiveDimension | src/ol/proj/EPSG3857.js:95 | The stride is the caller's dimension when it is given and greater than 1, and 2 otherwise. So it is always at least 2. |
| EPSG3857.TupleOffset | src/ol/proj/EPSG3857.js:106 | The offset of a slot within its tuple, counted one stride at a time, is less than the stride. |
| EPSG3857.TupleOffsetIsMod | src/ol/proj/EPSG3857.js:106 | Counting off strides from 0 gives the remainder `k % d`. |
| EPSG3857.StrideOffsets | src/ol/proj/EPSG3857.js:106 | Inside the tuple that starts at a stride position `i`, the offset of slot `k` is `k - i`, and `i + d` is again a stride position. |
| EPSG3857.SecondSlotInBounds | src/ol/proj/EPSG3857.js:106-115 | If the length does not leave a lone final value, then every tuple that starts inside the buffer has its second slot inside too, so `output[i + 1]` never grows the array. |
| EPSG3857.StrideMap | src/ol/proj/EPSG3857.js:106-116 | The buffer a strided loop leaves behind, from the input, the output's prior contents, the stride and the two per-slot formulas. Its own contract states only that it has the prior output's length; `StrideMapFrame` states what each slot holds. |
| EPSG3857.ForwardBuffer | src/ol/proj/EPSG3857.js:106-116 | `StrideMap` with the forward easting and the clamped forward northing: the content of the output after the forward loop. Its own contract states the length; `ForwardNorthingsBounded` and `BufferRoundTrip` state its content. |
| EPSG3857.InverseBuffer | src/ol/proj/EPSG3857.js:141-145 | `StrideMap` with the inverse easting and the unclamped inverse northing: the content of the output after the inverse loop. Its own contract states the length; `BufferRoundTrip` states its content. |
| EPSG3857.StrideStep | src/ol/proj/EPSG3857.js:106-116 | One loop iteration writes slots `i` and `i + 1` and extends the finished prefix by one whole tuple. |
| EPSG3857.DoneIsStrideMap | src/ol/proj/EPSG3857.js:106-117 | When the loop has passed the input's length, the buffer is exactly the transformed buffer. |
| EPSG3857.StrideMapFrame | src/ol/proj/EPSG3857.js:106-116 | In a transformed buffer, slot `k` holds the easting formula of `inp[k]` when `k % d == 0` and the northing formula when `k % d == 1`, for `k` inside the input. Every other slot, including those past the input, is unchanged. |
| EPSG3857.FullStrideIgnoresBase | src/ol/proj/EPSG3857.js:101-103 | With stride 2 and an even length every slot is written, so the prior contents of a new array do not matter. |
| EPSG3857.ForwardNorthingsBounded | src/ol/proj/EPSG3857.js:108-115 | Every northing slot (`k % d == 1`) of a forward-transformed buffer lies in `[-HALF_SIZE, HALF_SIZE]`. |
| EPSG3857.BufferRoundTrip | src/ol/proj/EPSG3857.js:129-147 | Forward then inverse, each allocating its output, has the input's length. It gives back every easting and every auxiliary slot exactly. Each northing slot becomes the inverse northing of the clamped forward northing. |
| EPSG3857.ThirdDimensionPassesThrough | src/ol/proj/EPSG3857.js:98-100 | For a three-value point `[lon, lat, z]`, both transforms write the two projected values and keep `z`. |
| EPSG3857.CopyOf | src/ol/proj/EPSG3857.js:100 | `input.slice()` gives a fresh array with the same contents. |
| EPSG3857.OutputBuffer | src/ol/proj/EPSG3857.js:96-104 | The destination is the caller's buffer when one is given. Otherwise it is a fresh array of the input's length, which is a copy of the input when the dimension exceeds 2. |
| EPSG3857.ForwardLoop | src/ol/proj/EPSG3857.js:105-116 | Afterwards the output holds the forward-transformed buffer of the old input over the old output contents, even when output and input are the same array. |
| EPSG3857.InverseLoop | src/ol/proj/EPSG3857.js:141-145 | Afterwards the output holds the inverse-transformed buffer of the old input over the old output contents, even when output and input are the same array. |
| EPSG3857.FromEPSG4326 | src/ol/proj/EPSG3857.js:93-118 | A caller-supplied buffer is updated in place and returned. Otherwise a fresh array of the input's length holds the input with every tuple's first two slots projected, and the input is unchanged. Every northing slot of the result lies in `[-HALF_SIZE, HALF_SIZE]`. |
| EPSG3857.ToEPSG4326 | src/ol/proj/EPSG3857.js:129-147 | The same output rule as the forward transform, with the inverse formulas and no clamp. |

## Left out

- Floating point: every quantity is a Dafny `real`. IEEE rounding, `NaN` and `Infinity` (for latitudes at or beyond the poles) are not modelled.
- `HALF_SIZE` is the exact real product of `Math.PI`'s double value and the radius. The double the code computes differs from it by rounding (about 2e-9 m).
- The transcendental routines (`Math.log`, `Math.tan`, `Math.atan`, `Math.exp`, `cosh` from `ol/math`) are parameters. Nothing is claimed about them beyond `cosh(0) = 1` and `cosh(x) >= 1`. So the northing round trip, the placement of the clamp boundary near latitude 85.0511, the known value `Forward([0, 0]) = [0, 0]` for the northing, and the fall of `getPointResolution` with distance from the equator are not proved.
- `ol/math` is not part of this model; neither are `Projection`, `Units` or `inherits`. The descriptor is a plain record. Its `getPointResolution` callback is the same function for every alias, `PointResolution`, and is not stored in the record.
- The registry that later maps codes to `PROJECTIONS` and to the transform pair is not in this module and is not modelled.
- A length that leaves a lone final value (`length % d == 1`) is excluded by precondition. In that case the code writes an undefined-derived value to `output[length]`, growing the output or overwriting a slot of a longer one.
- A caller-supplied output must be at least as long as the input. That is the caller contract of the model. Some shorter outputs would work in JavaScript, for example length 2 under a single 3-value tuple, because only the first two slots of each tuple are written; the model does not cover them.
- `opt_dimension` is modelled as an optional integer. A fractional or non-numeric dimension is not modelled.
- A new `Array(length)` starts out with holes in JavaScript. The model allocates an array of arbitrary values. With stride 2 and an even length every slot is overwritten, so the two agree (`FullStrideIgnoresBase`).
