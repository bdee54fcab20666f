/** The radiator analysis of `radiator.rs`: a radiator stamped into the
    fluid as a porous medium with Darcy-Forchheimer damping, and the
    read-only measurements taken around it (mass flow through its face,
    pressure drop across it, bilinear pressure probes, and the derived
    performance record). Trigonometric and square-root functions arrive as
    a `MathLib`. */
module Radiators {
  import opened Numerics
  import opened FluidSim
  import Obstacles

  /** Centre, size, rotation (zero is vertical) and porous-medium
      parameters of one radiator. */
  datatype Radiator = Radiator(x: real, y: real, width: real, height: real, angle: real,
                               porosity: real, resistance: real)

  /** One record of `analyze_performance`. */
  datatype RadiatorMetrics = RadiatorMetrics(angleDegrees: real, massFlowRate: real, pressureDrop: real,
                                             inletVelocity: real, outletVelocity: real,
                                             dragForce: real, liftForce: real,
                                             coolingEfficiency: real, fanPowerRequired: real)

  /** `std::f64::consts::PI`, as used by `to_degrees`. */
  const Pi: real := 3.141592653589793

  /** Below this speed a cell is left alone by the porous-medium model. */
  const MinSpeed: real := 0.000001
  /** The floor under the permeability before it is inverted. */
  const MinPermeability: real := 0.0000000001
  /** Air viscosity at room temperature. */
  const AirViscosity: real := 0.000018
  /** The Ergun constant of the inertial term. */
  const ErgunFactor: real := 1.75

  /** Samples along the radiator face for the mass flow. */
  const MassFlowSamples: nat := 20
  /** Samples along each pressure probe line. */
  const LineSamples: nat := 10
  /** How far before and after the centre the inlet and outlet speeds are
      read. */
  const VelocityProbeDistance: real := 0.05
  /** The mass flow at which the cooling estimate reaches one half. */
  const EfficiencyScale: real := 0.1

  // ---------------------------------------------------------------
  // Geometry

  /** The rotated-rectangle check of `apply_radiator_to_fluid`: the point,
      taken into the radiator's frame, lies within half its width and half
      its height of the centre. */
  predicate Covers(r: Radiator, px: real, py: real, lib: MathLib)
  {
    var c, s := lib.cos(r.angle), lib.sin(r.angle);
    var dx, dy := px - r.x, py - r.y;
    var lx, ly := dx * c + dy * s, -dx * s + dy * c;
    Abs(lx) <= r.width * 0.5 && Abs(ly) <= r.height * 0.5
  }

  /** The radiator as the porous rectangle obstacle of the same geometry. */
  function AsObstacle(r: Radiator): Obstacles.Obstacle
  {
    Obstacles.NewPorousRectangle(r.x, r.y, r.width, r.height, r.angle, r.porosity, r.resistance)
  }

  /** The radiator covers exactly the points its rectangle obstacle
      contains. */
  lemma CoversAsObstacle(r: Radiator, px: real, py: real, lib: MathLib)
    ensures Covers(r, px, py, lib) == Obstacles.ContainsPoint(AsObstacle(r), px, py, lib)
  {
    var o := AsObstacle(r);
    assert o.x == r.x && o.y == r.y && o.angle == r.angle;
    assert o.shape == Obstacles.Rectangle(r.width, r.height);
  }

  /** Cell `(a, b)` is stamped by `apply_radiator_to_fluid`: an interior
      cell whose centre the radiator covers. */
  predicate CellCovered(fluid: Fluid, r: Radiator, a: int, b: int, lib: MathLib)
  {
    1 <= a < fluid.numX - 1 && 1 <= b < fluid.numY - 1 &&
    Covers(r, (a as real + 0.5) * fluid.h, (b as real + 0.5) * fluid.h, lib)
  }

  /** Cell `(a, b)` is covered and the row-by-row scan standing at
      `(i, j)` has already visited it. */
  predicate StampedBy(fluid: Fluid, r: Radiator, a: int, b: int, i: int, j: int, lib: MathLib)
  {
    Before(a, b, i, j) && CellCovered(fluid, r, a, b, lib)
  }

  // ---------------------------------------------------------------
  // Porous-medium resistance

  /** The parameters under which the Darcy-Forchheimer damping is a number
      in `(0, 1]`: a porosity in `(0, 1]`, a positive resistance, and a
      non-negative density and cell size. */
  predicate Physical(r: Radiator, density: real, h: real)
  {
    0.0 < r.porosity <= 1.0 && r.resistance > 0.0 && density >= 0.0 && h >= 0.0
  }

  /** The magnitude `(u*u + v*v).sqrt()` of a velocity. */
  function Speed(u0: real, v0: real, lib: MathLib): real
  {
    lib.sqrt(u0 * u0 + v0 * v0)
  }

  /** The viscous (Darcy) plus inertial (Forchheimer) resistance scaled by
      the cell size. */
  function ResistanceFactor(r: Radiator, density: real, h: real, speed: real): (f: real)
    requires Physical(r, density, h) && speed >= 0.0
    ensures f >= 0.0
  {
    var permeability := r.porosity / r.resistance;
    var alpha := 1.0 / Max(permeability, MinPermeability);
    var cube := r.porosity * r.porosity * r.porosity;
    CubePositive(r.porosity);
    var beta := (1.0 - r.porosity) / cube * ErgunFactor;
    var viscous := alpha * AirViscosity;
    var inertial := beta * density * speed;
    FactorNonNegative(alpha, beta, density, speed, h);
    (viscous + inertial) * h
  }

  lemma CubePositive(p: real)
    requires p > 0.0
    ensures p * p * p > 0.0
  {
  }

  lemma PositiveProduct(a: real, b: real)
    requires a > 0.0 && b > 0.0
    ensures a * b > 0.0
  {
  }

  lemma FactorNonNegative(alpha: real, beta: real, density: real, speed: real, h: real)
    requires alpha > 0.0 && beta >= 0.0 && density >= 0.0 && speed >= 0.0 && h >= 0.0
    ensures (alpha * AirViscosity + beta * density * speed) * h >= 0.0
  {
    MulNonNeg(beta, density);
    MulNonNeg(beta * density, speed);
    MulNonNeg(alpha * AirViscosity + beta * density * speed, h);
  }

  /** `damping = 1 / (1 + resistance_factor)`: a factor in `(0, 1]`. */
  function Damping(r: Radiator, density: real, h: real, speed: real): (d: real)
    requires Physical(r, density, h) && speed >= 0.0
    ensures 0.0 < d <= 1.0
  {
    var f := ResistanceFactor(r, density, h, speed);
    ReciprocalBounds(f);
    1.0 / (1.0 + f)
  }

  lemma ReciprocalBounds(f: real)
    requires f >= 0.0
    ensures 0.0 < 1.0 / (1.0 + f) <= 1.0
  {
    var d := 1.0 / (1.0 + f);
    assert d * (1.0 + f) == 1.0;
    if d > 1.0 {
      ScaleMono(1.0 + f, 1.0, d);
    }
  }

  /** A cell is left alone when its speed is below `MinSpeed`. */
  predicate Slow(u0: real, v0: real, lib: MathLib)
  {
    Speed(u0, v0, lib) < MinSpeed
  }

  /** The horizontal velocity of a stamped cell after the porous-medium
      model. */
  function ResistedU(r: Radiator, density: real, h: real, u0: real, v0: real, lib: MathLib): real
    requires Physical(r, density, h)
  {
    if Slow(u0, v0, lib) then u0 else u0 * Damping(r, density, h, Speed(u0, v0, lib))
  }

  /** The vertical velocity of a stamped cell after the porous-medium
      model. */
  function ResistedV(r: Radiator, density: real, h: real, u0: real, v0: real, lib: MathLib): real
    requires Physical(r, density, h)
  {
    if Slow(u0, v0, lib) then v0 else v0 * Damping(r, density, h, Speed(u0, v0, lib))
  }

  /** The openness of a stamped cell after the porous-medium model. */
  function ResistedS(r: Radiator, s0: real, u0: real, v0: real, lib: MathLib): real
  {
    if Slow(u0, v0, lib) then s0 else r.porosity
  }

  /** The porous medium only brakes: each component keeps its sign and
      does not grow. */
  lemma {:induction false} ResistanceOnlyBrakes(r: Radiator, density: real, h: real, u0: real, v0: real, lib: MathLib)
    requires Physical(r, density, h)
    ensures Abs(ResistedU(r, density, h, u0, v0, lib)) <= Abs(u0)
    ensures Abs(ResistedV(r, density, h, u0, v0, lib)) <= Abs(v0)
    ensures ResistedU(r, density, h, u0, v0, lib) * u0 >= 0.0
    ensures ResistedV(r, density, h, u0, v0, lib) * v0 >= 0.0
  {
    if Slow(u0, v0, lib) {
      SquareNonNegative(u0);
      SquareNonNegative(v0);
    } else {
      var d := Damping(r, density, h, Speed(u0, v0, lib));
      assert ResistedU(r, density, h, u0, v0, lib) == u0 * d && ResistedV(r, density, h, u0, v0, lib) == v0 * d;
      ShrinkByFactor(u0, d);
      ShrinkByFactor(v0, d);
    }
  }

  /** Both components are scaled by the same factor, so the direction of
      the velocity is kept: `(u', v')` is parallel to `(u, v)`. */
  lemma {:induction false} ResistanceKeepsDirection(r: Radiator, density: real, h: real, u0: real, v0: real, lib: MathLib)
    requires Physical(r, density, h)
    ensures ResistedU(r, density, h, u0, v0, lib) * v0 == ResistedV(r, density, h, u0, v0, lib) * u0
  {
    if !Slow(u0, v0, lib) {
      var d := Damping(r, density, h, Speed(u0, v0, lib));
      SameFactor(u0, v0, d);
    }
  }

  lemma SameFactor(x: real, y: real, d: real)
    ensures (x * d) * y == (y * d) * x
  {
  }

  lemma SquareNonNegative(x: real)
    ensures x * x >= 0.0
  {
    if x < 0.0 {
      MulNonNeg(-x, -x);
    } else {
      MulNonNeg(x, x);
    }
  }

  lemma ShrinkByFactor(x: real, d: real)
    requires 0.0 < d <= 1.0
    ensures Abs(x * d) <= Abs(x)
    ensures (x * d) * x >= 0.0
  {
    if x >= 0.0 {
      ScaleMono(x, d, 1.0);
      MulNonNeg(x, d);
      MulNonNeg(x * d, x);
    } else {
      ScaleMono(-x, d, 1.0);
      MulNonNeg(-x, d);
      MulNonNeg((-x) * d, -x);
      assert (x * d) * x == ((-x) * d) * (-x);
    }
  }

  /** Stamping keeps every openness in `[0, 1]` when the porosity is. */
  lemma ResistedSInUnitRange(r: Radiator, s0: real, u0: real, v0: real, lib: MathLib)
    requires 0.0 <= s0 <= 1.0 && 0.0 < r.porosity <= 1.0
    ensures 0.0 <= ResistedS(r, s0, u0, v0, lib) <= 1.0
  {
  }

  // ---------------------------------------------------------------
  // Pressure probes

  /** The coordinate `c / h` in cells, clamped to `[0, n-1]`. */
  function CellCoordinate(c: real, h: real, n: nat): (g: real)
    requires h > 0.0 && n >= 1
    ensures 0.0 <= g <= (n - 1) as real
  {
    Min(Max(c / h, 0.0), (n - 1) as real)
  }

  /** One axis of `sample_pressure_at_point`: the clamped cell coordinate,
      its floor, the next node (clamped to `n-1`), and the fraction
      between them. */
  function PressureAxis(c: real, h: real, n: nat): (a: Axis)
    requires h > 0.0 && n >= 1
    ensures a.lo < n && a.hi < n
    ensures a.hi == a.lo + 1 || (a.hi == a.lo && a.lo == n - 1)
    ensures 0.0 <= a.t < 1.0
  {
    var g := CellCoordinate(c, h, n);
    var lo := g.Floor;
    var hi := if lo + 1 < n - 1 then lo + 1 else n - 1;
    Axis(lo, hi, g - lo as real)
  }

  /** The grid node `k h` is cell coordinate `k`. */
  lemma CellCoordinateAtNode(k: nat, h: real, n: nat)
    requires h > 0.0 && k < n
    ensures CellCoordinate(k as real * h, h, n) == k as real
  {
    assert (k as real * h) / h == k as real;
  }

  /** `sample_pressure_at_point`: bilinear interpolation of the pressure
      with the coordinates clamped onto the grid. */
  function SamplePressureAtPoint(fluid: Fluid, x: real, y: real): (r: real)
    requires fluid.Valid()
    reads fluid.p
    ensures var ax, ay, p := PressureAxis(x, fluid.h, fluid.numX), PressureAxis(y, fluid.h, fluid.numY), fluid.p;
      Min4(p[ax.lo, ay.lo], p[ax.hi, ay.lo], p[ax.hi, ay.hi], p[ax.lo, ay.hi]) <= r <=
      Max4(p[ax.lo, ay.lo], p[ax.hi, ay.lo], p[ax.hi, ay.hi], p[ax.lo, ay.hi])
  {
    var ax, ay, p := PressureAxis(x, fluid.h, fluid.numX), PressureAxis(y, fluid.h, fluid.numY), fluid.p;
    BilinearIsConvex(ax.t, ay.t, p[ax.lo, ay.lo], p[ax.hi, ay.lo], p[ax.hi, ay.hi], p[ax.lo, ay.hi]);
    Bilinear(ax.t, ay.t, p[ax.lo, ay.lo], p[ax.hi, ay.lo], p[ax.hi, ay.hi], p[ax.lo, ay.hi])
  }

  /** A pressure field within `[lo, hi]` is probed within `[lo, hi]`
      everywhere. */
  lemma SamplePressureWithin(fluid: Fluid, x: real, y: real, lo: real, hi: real)
    requires fluid.Valid() && Within(fluid.p, lo, hi)
    ensures lo <= SamplePressureAtPoint(fluid, x, y) <= hi
  {
    var ax, ay, p := PressureAxis(x, fluid.h, fluid.numX), PressureAxis(y, fluid.h, fluid.numY), fluid.p;
    assert lo <= Min4(p[ax.lo, ay.lo], p[ax.hi, ay.lo], p[ax.hi, ay.hi], p[ax.lo, ay.hi]);
    assert Max4(p[ax.lo, ay.lo], p[ax.hi, ay.lo], p[ax.hi, ay.hi], p[ax.lo, ay.hi]) <= hi;
  }

  /** Where both cell coordinates are whole numbers `k` and `l`, the probe
      returns `p[k, l]` exactly. */
  lemma SamplePressureAtWholeCell(fluid: Fluid, x: real, y: real, k: nat, l: nat)
    requires fluid.Valid()
    requires CellCoordinate(x, fluid.h, fluid.numX) == k as real
    requires CellCoordinate(y, fluid.h, fluid.numY) == l as real
    ensures SamplePressureAtPoint(fluid, x, y) == fluid.p[k, l]
  {
    var ax, ay, p := PressureAxis(x, fluid.h, fluid.numX), PressureAxis(y, fluid.h, fluid.numY), fluid.p;
    assert ax.lo == k && ax.t == 0.0;
    assert ay.lo == l && ay.t == 0.0;
    BilinearAtCorner(p[k, l], p[ax.hi, l], p[ax.hi, ay.hi], p[k, ay.hi]);
  }

  /** At the grid point `(k h, l h)` the probe returns `p[k, l]` exactly. */
  lemma SamplePressureAtNode(fluid: Fluid, k: nat, l: nat)
    requires fluid.Valid() && k < fluid.numX && l < fluid.numY
    ensures SamplePressureAtPoint(fluid, k as real * fluid.h, l as real * fluid.h) == fluid.p[k, l]
  {
    CellCoordinateAtNode(k, fluid.h, fluid.numX);
    CellCoordinateAtNode(l, fluid.h, fluid.numY);
    SamplePressureAtWholeCell(fluid, k as real * fluid.h, l as real * fluid.h, k, l);
  }

  /** Sample `k` of a pressure line of the given length through `(x, y)`,
      perpendicular to the flow direction `angle`. */
  function LinePoint(x: real, y: real, length: real, angle: real, k: nat, lib: MathLib): (real, real)
  {
    var t := (k as real + 0.5) / LineSamples as real - 0.5;
    (x - t * length * lib.sin(angle), y + t * length * lib.cos(angle))
  }

  /** A line sample counts when it is at least one cell away from the
      lower walls and short of the last cell. */
  predicate InPressureWindow(fluid: Fluid, px: real, py: real)
  {
    px >= fluid.h && px < (fluid.numX as real - 1.0) * fluid.h &&
    py >= fluid.h && py < (fluid.numY as real - 1.0) * fluid.h
  }

  /** The pressures of the counted samples among the first `k`, in order. */
  function LineValues(fluid: Fluid, x: real, y: real, length: real, angle: real, lib: MathLib, k: nat): seq<real>
    requires fluid.Valid()
    reads fluid.p
  {
    if k == 0 then []
    else
      var pt := LinePoint(x, y, length, angle, k - 1, lib);
      LineValues(fluid, x, y, length, angle, lib, k - 1) +
      (if InPressureWindow(fluid, pt.0, pt.1) then [SamplePressureAtPoint(fluid, pt.0, pt.1)] else [])
  }

  /** What `sample_pressure_line_average` returns: the mean of the counted
      samples, or zero when none counts. */
  function LineMean(fluid: Fluid, x: real, y: real, length: real, angle: real, lib: MathLib): real
    requires fluid.Valid()
    reads fluid.p
  {
    MeanOrZero(LineValues(fluid, x, y, length, angle, lib, LineSamples))
  }

  /** Every counted sample of a pressure field within `[lo, hi]` is within
      `[lo, hi]`. */
  lemma {:induction false} LineValuesWithin(fluid: Fluid, x: real, y: real, length: real, angle: real, lib: MathLib,
                                            k: nat, lo: real, hi: real)
    requires fluid.Valid() && Within(fluid.p, lo, hi)
    ensures forall e :: e in LineValues(fluid, x, y, length, angle, lib, k) ==> lo <= e <= hi
  {
    if k > 0 {
      LineValuesWithin(fluid, x, y, length, angle, lib, k - 1, lo, hi);
      var pt := LinePoint(x, y, length, angle, k - 1, lib);
      SamplePressureWithin(fluid, pt.0, pt.1, lo, hi);
    }
  }

  /** The line average lies between the smallest and the largest counted
      sample (any bounds of them), and is zero when no sample counts. */
  lemma LineMeanBetweenSamples(fluid: Fluid, x: real, y: real, length: real, angle: real, lib: MathLib, lo: real, hi: real)
    requires fluid.Valid()
    requires forall e :: e in LineValues(fluid, x, y, length, angle, lib, LineSamples) ==> lo <= e <= hi
    ensures |LineValues(fluid, x, y, length, angle, lib, LineSamples)| == 0 ==> LineMean(fluid, x, y, length, angle, lib) == 0.0
    ensures |LineValues(fluid, x, y, length, angle, lib, LineSamples)| > 0 ==> lo <= LineMean(fluid, x, y, length, angle, lib) <= hi
  {
    var vals := LineValues(fluid, x, y, length, angle, lib, LineSamples);
    if |vals| > 0 {
      assert forall k :: 0 <= k < |vals| ==> vals[k] in vals;
      MeanWithin(vals, lo, hi);
    }
  }

  /** A pressure field within `[lo, hi]` gives a line average within
      `[lo, hi]` whenever some sample counts. */
  lemma LineMeanWithin(fluid: Fluid, x: real, y: real, length: real, angle: real, lib: MathLib, lo: real, hi: real)
    requires fluid.Valid() && Within(fluid.p, lo, hi)
    requires |LineValues(fluid, x, y, length, angle, lib, LineSamples)| > 0
    ensures lo <= LineMean(fluid, x, y, length, angle, lib) <= hi
  {
    LineValuesWithin(fluid, x, y, length, angle, lib, LineSamples, lo, hi);
    LineMeanBetweenSamples(fluid, x, y, length, angle, lib, lo, hi);
  }

  /** How far before and after the centre the pressure lines are placed:
      half the width plus two cells, clear of the radiator. */
  function ProbeDistance(r: Radiator, h: real): real
  {
    r.width * 0.5 + 2.0 * h
  }

  /** The centre of the upstream pressure line. */
  function UpstreamProbe(r: Radiator, h: real, lib: MathLib): (real, real)
  {
    var d := ProbeDistance(r, h);
    (r.x - d * lib.cos(r.angle), r.y - d * lib.sin(r.angle))
  }

  /** The centre of the downstream pressure line. */
  function DownstreamProbe(r: Radiator, h: real, lib: MathLib): (real, real)
  {
    var d := ProbeDistance(r, h);
    (r.x + d * lib.cos(r.angle), r.y + d * lib.sin(r.angle))
  }

  /** The two probe lines sit symmetrically about the radiator's centre,
      `2 (width/2 + 2h)` apart along the direction `(cos, sin)` of the
      radiator's angle. */
  lemma ProbesSymmetric(r: Radiator, h: real, lib: MathLib)
    ensures UpstreamProbe(r, h, lib).0 + DownstreamProbe(r, h, lib).0 == 2.0 * r.x
    ensures UpstreamProbe(r, h, lib).1 + DownstreamProbe(r, h, lib).1 == 2.0 * r.y
    ensures DownstreamProbe(r, h, lib).0 - UpstreamProbe(r, h, lib).0 == 2.0 * ProbeDistance(r, h) * lib.cos(r.angle)
    ensures DownstreamProbe(r, h, lib).1 - UpstreamProbe(r, h, lib).1 == 2.0 * ProbeDistance(r, h) * lib.sin(r.angle)
  {
  }

  /** What `calculate_pressure_drop` returns: upstream line average minus
      downstream line average. */
  function PressureDrop(fluid: Fluid, r: Radiator, lib: MathLib): real
    requires fluid.Valid()
    reads fluid.p
  {
    var up, down := UpstreamProbe(r, fluid.h, lib), DownstreamProbe(r, fluid.h, lib);
    LineMean(fluid, up.0, up.1, r.height, r.angle, lib) - LineMean(fluid, down.0, down.1, r.height, r.angle, lib)
  }

  /** A uniform pressure field shows no drop when both probe lines have a
      counted sample, and a pressure field within `[lo, hi]` shows a drop
      of at most `hi - lo` in either direction. */
  lemma PressureDropBounded(fluid: Fluid, r: Radiator, lib: MathLib, lo: real, hi: real)
    requires fluid.Valid() && Within(fluid.p, lo, hi)
    requires var up := UpstreamProbe(r, fluid.h, lib); |LineValues(fluid, up.0, up.1, r.height, r.angle, lib, LineSamples)| > 0
    requires var down := DownstreamProbe(r, fluid.h, lib); |LineValues(fluid, down.0, down.1, r.height, r.angle, lib, LineSamples)| > 0
    ensures lo - hi <= PressureDrop(fluid, r, lib) <= hi - lo
  {
    var up, down := UpstreamProbe(r, fluid.h, lib), DownstreamProbe(r, fluid.h, lib);
    LineMeanWithin(fluid, up.0, up.1, r.height, r.angle, lib, lo, hi);
    LineMeanWithin(fluid, down.0, down.1, r.height, r.angle, lib, lo, hi);
  }

  // ---------------------------------------------------------------
  // Mass flow and velocities

  /** Sample `k` on the radiator face: `t` runs over the segment centres
      from `-0.5` to `0.5` of the height. */
  function FacePoint(r: Radiator, k: nat, lib: MathLib): (real, real)
  {
    var t := (k as real + 0.5) / MassFlowSamples as real - 0.5;
    var local := t * r.height;
    (r.x - local * lib.sin(r.angle), r.y + local * lib.cos(r.angle))
  }

  /** A face sample counts when it lies in `[0, num_x h) x [0, num_y h)`. */
  predicate InDomain(fluid: Fluid, px: real, py: real)
  {
    0.0 <= px < fluid.numX as real * fluid.h && 0.0 <= py < fluid.numY as real * fluid.h
  }

  /** The component of the velocity `(u0, v0)` along `(cos, sin)` of the
      radiator's angle, the flow direction through its face. */
  function NormalVelocity(u0: real, v0: real, angle: real, lib: MathLib): real
  {
    u0 * lib.cos(angle) + v0 * lib.sin(angle)
  }

  /** The mass flow carried by one of the twenty face segments at the
      given normal velocity: the velocity times the segment's share of the
      height, the cell size and the density. */
  function SegmentFlow(normal: real, r: Radiator, h: real, density: real): real
  {
    normal * (r.height / MassFlowSamples as real) * h * density
  }

  /** The mass flow through face segment `k`: the velocity component along
      `(cos, sin)`, times the segment's share of the height, the cell size
      and the density; nothing for a sample outside the domain. */
  function FlowContribution(fluid: Fluid, r: Radiator, k: nat, lib: MathLib): real
    requires fluid.Valid()
    reads fluid.u, fluid.v, fluid.m
  {
    var pt := FacePoint(r, k, lib);
    if !InDomain(fluid, pt.0, pt.1) then 0.0
    else
      var normal := NormalVelocity(fluid.SampleField(pt.0, pt.1, U), fluid.SampleField(pt.0, pt.1, V), r.angle, lib);
      SegmentFlow(normal, r, fluid.h, fluid.density)
  }

  /** The signed mass flow of the first `k` face segments. */
  function FlowSum(fluid: Fluid, r: Radiator, lib: MathLib, k: nat): real
    requires fluid.Valid()
    reads fluid.u, fluid.v, fluid.m
  {
    if k == 0 then 0.0 else FlowSum(fluid, r, lib, k - 1) + FlowContribution(fluid, r, k - 1, lib)
  }

  /** Segments whose samples all lie outside the domain carry no flow. */
  lemma {:induction false} FlowSumOutsideDomain(fluid: Fluid, r: Radiator, lib: MathLib, k: nat)
    requires fluid.Valid()
    requires forall j :: 0 <= j < k ==> !InDomain(fluid, FacePoint(r, j, lib).0, FacePoint(r, j, lib).1)
    ensures FlowSum(fluid, r, lib, k) == 0.0
  {
    if k > 0 {
      FlowSumOutsideDomain(fluid, r, lib, k - 1);
    }
  }

  /** A fluid at rest has no mass flow through the radiator. */
  lemma {:induction false} FlowSumAtRest(fluid: Fluid, r: Radiator, lib: MathLib, k: nat)
    requires fluid.Valid() && Within(fluid.u, 0.0, 0.0) && Within(fluid.v, 0.0, 0.0)
    ensures FlowSum(fluid, r, lib, k) == 0.0
  {
    if k > 0 {
      FlowSumAtRest(fluid, r, lib, k - 1);
      var pt := FacePoint(r, k - 1, lib);
      fluid.SampleFieldWithin(pt.0, pt.1, U, 0.0, 0.0);
      fluid.SampleFieldWithin(pt.0, pt.1, V, 0.0, 0.0);
    }
  }

  /** The speed `calculate_inlet_velocity` reads `0.05` before the centre. */
  function InletVelocity(fluid: Fluid, r: Radiator, lib: MathLib): real
    requires fluid.Valid()
    reads fluid.u, fluid.v, fluid.m
  {
    var px := r.x - VelocityProbeDistance * lib.cos(r.angle);
    var py := r.y - VelocityProbeDistance * lib.sin(r.angle);
    Speed(fluid.SampleField(px, py, U), fluid.SampleField(px, py, V), lib)
  }

  /** The speed `calculate_outlet_velocity` reads `0.05` after the centre. */
  function OutletVelocity(fluid: Fluid, r: Radiator, lib: MathLib): real
    requires fluid.Valid()
    reads fluid.u, fluid.v, fluid.m
  {
    var px := r.x + VelocityProbeDistance * lib.cos(r.angle);
    var py := r.y + VelocityProbeDistance * lib.sin(r.angle);
    Speed(fluid.SampleField(px, py, U), fluid.SampleField(px, py, V), lib)
  }

  /** With a square root that behaves as one, every speed is non-negative. */
  lemma SpeedNonNegative(u0: real, v0: real, lib: MathLib)
    requires SqrtLaw(lib)
    ensures Speed(u0, v0, lib) >= 0.0
  {
    MulNonNeg(Abs(u0), Abs(u0));
    MulNonNeg(Abs(v0), Abs(v0));
    assert Abs(u0) * Abs(u0) == u0 * u0 && Abs(v0) * Abs(v0) == v0 * v0;
  }

  /** Every speed is non-negative, whatever its components. */
  lemma SpeedsNonNegative(lib: MathLib)
    requires SqrtLaw(lib)
    ensures forall u0, v0 :: Speed(u0, v0, lib) >= 0.0
  {
    forall u0, v0
      ensures Speed(u0, v0, lib) >= 0.0
    {
      SpeedNonNegative(u0, v0, lib);
    }
  }

  /** The inlet and outlet speeds are non-negative. */
  lemma ProbeVelocitiesNonNegative(fluid: Fluid, r: Radiator, lib: MathLib)
    requires fluid.Valid() && SqrtLaw(lib)
    ensures InletVelocity(fluid, r, lib) >= 0.0 && OutletVelocity(fluid, r, lib) >= 0.0
  {
    SpeedsNonNegative(lib);
  }

  /** The cooling estimate `min(mf / (mf + 0.1), 1)`: zero without flow,
      below one for every flow. */
  function CoolingEfficiency(massFlow: real): (e: real)
    requires massFlow >= 0.0
    ensures 0.0 <= e < 1.0
    ensures e == 0.0 <==> massFlow == 0.0
  {
    FractionBelowOne(massFlow, EfficiencyScale);
    Min(massFlow / (massFlow + EfficiencyScale), 1.0)
  }

  lemma FractionBelowOne(a: real, c: real)
    requires a >= 0.0 && c > 0.0
    ensures 0.0 <= a / (a + c) < 1.0
    ensures a / (a + c) == 0.0 <==> a == 0.0
  {
    var q := a / (a + c);
    assert q * (a + c) == a;
    if q >= 1.0 {
      ScaleMono(a + c, 1.0, q);
    }
    if q < 0.0 {
      ScaleMono(a + c, q, 0.0);
    }
  }

  lemma Distribute(x: real, y: real, z: real)
    ensures x * z - y * z == (x - y) * z
  {
  }

  lemma QuotientNonNegative(a: real, c: real)
    requires a >= 0.0 && c > 0.0
    ensures a / c >= 0.0
  {
  }

  /** More mass flow never lowers the cooling estimate. */
  lemma {:induction false} CoolingEfficiencyMonotone(a: real, b: real)
    requires 0.0 <= a <= b
    ensures CoolingEfficiency(a) <= CoolingEfficiency(b)
  {
    var c := EfficiencyScale;
    FractionBelowOne(a, c);
    FractionBelowOne(b, c);
    var qa, qb := a / (a + c), b / (b + c);
    // Both complements `1 - q` are `c / (x + c)`; the smaller denominator
    // gives the larger complement.
    assert (1.0 - qa) * (a + c) == c;
    assert (1.0 - qb) * (b + c) == c;
    if qa > qb {
      Distribute(1.0 - qb, 1.0 - qa, b + c);
      ScaleMono(1.0 - qa, a + c, b + c);
      PositiveProduct(qa - qb, b + c);
      assert false;
    }
  }

  /** The fan power `pressure_drop * (mass_flow / density)`: the pressure
      drop times the volumetric flow. */
  function FanPower(drop: real, massFlow: real, density: real): real
    requires density != 0.0
  {
    drop * (massFlow / density)
  }

  /** For a positive density and a non-negative mass flow, the fan power
      has the sign of the pressure drop, and vanishes without flow or
      without drop. */
  lemma {:induction false} FanPowerSign(drop: real, massFlow: real, density: real)
    requires density > 0.0 && massFlow >= 0.0
    ensures drop >= 0.0 ==> FanPower(drop, massFlow, density) >= 0.0
    ensures drop <= 0.0 ==> FanPower(drop, massFlow, density) <= 0.0
    ensures massFlow == 0.0 || drop == 0.0 ==> FanPower(drop, massFlow, density) == 0.0
  {
    var q := massFlow / density;
    QuotientNonNegative(massFlow, density);
    if drop >= 0.0 {
      MulNonNeg(drop, q);
    } else {
      MulNonNeg(-drop, q);
    }
  }

  // ---------------------------------------------------------------
  // The analyzer

  class RadiatorAnalyzer {
    var radiators: seq<Radiator>
    var metricsHistory: seq<RadiatorMetrics>

    /** `RadiatorAnalyzer::new`: no radiators and no history. */
    constructor ()
      ensures radiators == [] && metricsHistory == []
    {
      radiators := [];
      metricsHistory := [];
    }

    /** `add_radiator` appends exactly one radiator. */
    method AddRadiator(r: Radiator)
      modifies this
      ensures radiators == old(radiators) + [r]
      ensures metricsHistory == old(metricsHistory)
    {
      radiators := radiators + [r];
    }

    /** `apply_porous_medium_resistance` on cell `(i, j)`: unless the cell
        is slower than `MinSpeed`, both velocity components are multiplied
        by the damping and the openness becomes the porosity. Nothing else
        is written. */
    method ApplyPorousMediumResistance(fluid: Fluid, i: nat, j: nat, r: Radiator, lib: MathLib)
      requires fluid.Valid() && i < fluid.numX && j < fluid.numY
      requires Physical(r, fluid.density, fluid.h)
      modifies fluid.u, fluid.v, fluid.s
      ensures forall a, b :: fluid.InGrid(a, b) ==>
        fluid.u[a, b] == if a == i && b == j then ResistedU(r, fluid.density, fluid.h, old(fluid.u[a, b]), old(fluid.v[a, b]), lib)
                         else old(fluid.u[a, b])
      ensures forall a, b :: fluid.InGrid(a, b) ==>
        fluid.v[a, b] == if a == i && b == j then ResistedV(r, fluid.density, fluid.h, old(fluid.u[a, b]), old(fluid.v[a, b]), lib)
                         else old(fluid.v[a, b])
      ensures forall a, b :: fluid.InGrid(a, b) ==>
        fluid.s[a, b] == if a == i && b == j then ResistedS(r, old(fluid.s[a, b]), old(fluid.u[a, b]), old(fluid.v[a, b]), lib)
                         else old(fluid.s[a, b])
    {
      var u0 := fluid.u[i, j];
      var v0 := fluid.v[i, j];
      var speed := Speed(u0, v0, lib);
      if speed < MinSpeed {
        return;
      }
      var damping := Damping(r, fluid.density, fluid.h, speed);
      fluid.u[i, j] := fluid.u[i, j] * damping;
      fluid.v[i, j] := fluid.v[i, j] * damping;
      fluid.s[i, j] := r.porosity;
    }

    /** `apply_radiator_to_fluid`: every interior cell whose centre the
        radiator covers goes through the porous-medium model, each from its
        own old values; every other cell, the ghost ring included, is left
        as it was, and opennesses in `[0, 1]` stay there. */
    method ApplyRadiatorToFluid(fluid: Fluid, r: Radiator, lib: MathLib)
      requires fluid.Valid() && Physical(r, fluid.density, fluid.h)
      modifies fluid.u, fluid.v, fluid.s
      ensures forall a, b :: fluid.InGrid(a, b) ==>
        fluid.u[a, b] == if CellCovered(fluid, r, a, b, lib) then ResistedU(r, fluid.density, fluid.h, old(fluid.u[a, b]), old(fluid.v[a, b]), lib)
                         else old(fluid.u[a, b])
      ensures forall a, b :: fluid.InGrid(a, b) ==>
        fluid.v[a, b] == if CellCovered(fluid, r, a, b, lib) then ResistedV(r, fluid.density, fluid.h, old(fluid.u[a, b]), old(fluid.v[a, b]), lib)
                         else old(fluid.v[a, b])
      ensures forall a, b :: fluid.InGrid(a, b) ==>
        fluid.s[a, b] == if CellCovered(fluid, r, a, b, lib) then ResistedS(r, old(fluid.s[a, b]), old(fluid.u[a, b]), old(fluid.v[a, b]), lib)
                         else old(fluid.s[a, b])
      ensures old(Within(fluid.s, 0.0, 1.0)) ==> Within(fluid.s, 0.0, 1.0)
    {
      var i := 1;
      while i < fluid.numX - 1
        invariant 1 <= i <= fluid.numX - 1
        invariant forall a, b :: fluid.InGrid(a, b) ==>
          fluid.u[a, b] == if StampedBy(fluid, r, a, b, i, 1, lib) then ResistedU(r, fluid.density, fluid.h, old(fluid.u[a, b]), old(fluid.v[a, b]), lib)
                           else old(fluid.u[a, b])
        invariant forall a, b :: fluid.InGrid(a, b) ==>
          fluid.v[a, b] == if StampedBy(fluid, r, a, b, i, 1, lib) then ResistedV(r, fluid.density, fluid.h, old(fluid.u[a, b]), old(fluid.v[a, b]), lib)
                           else old(fluid.v[a, b])
        invariant forall a, b :: fluid.InGrid(a, b) ==>
          fluid.s[a, b] == if StampedBy(fluid, r, a, b, i, 1, lib) then ResistedS(r, old(fluid.s[a, b]), old(fluid.u[a, b]), old(fluid.v[a, b]), lib)
                           else old(fluid.s[a, b])
      {
        var j := 1;
        while j < fluid.numY - 1
          invariant 1 <= j <= fluid.numY - 1
          invariant forall a, b :: fluid.InGrid(a, b) ==>
            fluid.u[a, b] == if StampedBy(fluid, r, a, b, i, j, lib) then ResistedU(r, fluid.density, fluid.h, old(fluid.u[a, b]), old(fluid.v[a, b]), lib)
                             else old(fluid.u[a, b])
          invariant forall a, b :: fluid.InGrid(a, b) ==>
            fluid.v[a, b] == if StampedBy(fluid, r, a, b, i, j, lib) then ResistedV(r, fluid.density, fluid.h, old(fluid.u[a, b]), old(fluid.v[a, b]), lib)
                             else old(fluid.v[a, b])
          invariant forall a, b :: fluid.InGrid(a, b) ==>
            fluid.s[a, b] == if StampedBy(fluid, r, a, b, i, j, lib) then ResistedS(r, old(fluid.s[a, b]), old(fluid.u[a, b]), old(fluid.v[a, b]), lib)
                             else old(fluid.s[a, b])
        {
          if CellCovered(fluid, r, i, j, lib) {
            ApplyPorousMediumResistance(fluid, i, j, r, lib);
          }
          forall a, b | fluid.InGrid(a, b)
            ensures StampedBy(fluid, r, a, b, i, j + 1, lib) == (StampedBy(fluid, r, a, b, i, j, lib) || (a == i && b == j && CellCovered(fluid, r, i, j, lib)))
          {
          }
          j := j + 1;
        }
        forall a, b | fluid.InGrid(a, b)
          ensures StampedBy(fluid, r, a, b, i + 1, 1, lib) == StampedBy(fluid, r, a, b, i, j, lib)
        {
        }
        i := i + 1;
      }
      forall a, b | fluid.InGrid(a, b)
        ensures StampedBy(fluid, r, a, b, i, 1, lib) == CellCovered(fluid, r, a, b, lib)
      {
      }
      forall a, b | fluid.InGrid(a, b) && old(Within(fluid.s, 0.0, 1.0))
        ensures 0.0 <= fluid.s[a, b] <= 1.0
      {
        ResistedSInUnitRange(r, old(fluid.s[a, b]), old(fluid.u[a, b]), old(fluid.v[a, b]), lib);
      }
    }

    /** `calculate_mass_flow`: the magnitude of the signed flow summed over
        the twenty face segments, skipping samples outside the domain. */
    method CalculateMassFlow(fluid: Fluid, r: Radiator, lib: MathLib) returns (flow: real)
      requires fluid.Valid()
      ensures flow == Abs(FlowSum(fluid, r, lib, MassFlowSamples))
      ensures flow >= 0.0
    {
      var massFlow := 0.0;
      var i := 0;
      while i < MassFlowSamples
        invariant 0 <= i <= MassFlowSamples
        invariant massFlow == FlowSum(fluid, r, lib, i)
      {
        var pt := FacePoint(r, i, lib);
        if InDomain(fluid, pt.0, pt.1) {
          var u := fluid.SampleField(pt.0, pt.1, U);
          var v := fluid.SampleField(pt.0, pt.1, V);
          var normalVelocity := NormalVelocity(u, v, r.angle, lib);
          massFlow := massFlow + SegmentFlow(normalVelocity, r, fluid.h, fluid.density);
        }
        i := i + 1;
      }
      flow := Abs(massFlow);
    }

    /** `sample_pressure_line_average`: the running sum and count of the
        counted samples, and their mean (zero without any). */
    method SamplePressureLineAverage(fluid: Fluid, x: real, y: real, length: real, angle: real, lib: MathLib)
      returns (average: real)
      requires fluid.Valid()
      ensures average == LineMean(fluid, x, y, length, angle, lib)
    {
      var pressureSum := 0.0;
      var validSamples: nat := 0;
      var i := 0;
      while i < LineSamples
        invariant 0 <= i <= LineSamples
        invariant pressureSum == Sum(LineValues(fluid, x, y, length, angle, lib, i))
        invariant validSamples == |LineValues(fluid, x, y, length, angle, lib, i)|
      {
        var pt := LinePoint(x, y, length, angle, i, lib);
        ghost var before := LineValues(fluid, x, y, length, angle, lib, i);
        if InPressureWindow(fluid, pt.0, pt.1) {
          var pressure := SamplePressureAtPoint(fluid, pt.0, pt.1);
          assert LineValues(fluid, x, y, length, angle, lib, i + 1) == before + [pressure];
          assert (before + [pressure])[..|before|] == before;
          pressureSum := pressureSum + pressure;
          validSamples := validSamples + 1;
        } else {
          assert LineValues(fluid, x, y, length, angle, lib, i + 1) == before + [];
          assert before + [] == before;
        }
        i := i + 1;
      }
      if validSamples > 0 {
        average := pressureSum / validSamples as real;
      } else {
        average := 0.0;
      }
    }

    /** `calculate_pressure_drop`: the upstream line average minus the
        downstream one, each line as long as the radiator is high. */
    method CalculatePressureDrop(fluid: Fluid, r: Radiator, lib: MathLib) returns (drop: real)
      requires fluid.Valid()
      ensures drop == PressureDrop(fluid, r, lib)
    {
      var up := UpstreamProbe(r, fluid.h, lib);
      var down := DownstreamProbe(r, fluid.h, lib);
      var pUp := SamplePressureLineAverage(fluid, up.0, up.1, r.height, r.angle, lib);
      var pDown := SamplePressureLineAverage(fluid, down.0, down.1, r.height, r.angle, lib);
      drop := pUp - pDown;
    }

    /** `analyze_performance` with the drag and lift of `calculate_forces`
        given as inputs: the record of mass flow, pressure drop, probe
        speeds, cooling estimate and fan power, appended to the history.
        Only the analyzer changes; the fluid is read. */
    method AnalyzePerformance(fluid: Fluid, r: Radiator, dragForce: real, liftForce: real, lib: MathLib)
      returns (metrics: RadiatorMetrics)
      requires fluid.Valid() && fluid.density != 0.0
      modifies this
      ensures metricsHistory == old(metricsHistory) + [metrics]
      ensures radiators == old(radiators)
      ensures metrics.massFlowRate == Abs(FlowSum(fluid, r, lib, MassFlowSamples))
      ensures metrics.pressureDrop == PressureDrop(fluid, r, lib)
      ensures metrics.inletVelocity == InletVelocity(fluid, r, lib)
      ensures metrics.outletVelocity == OutletVelocity(fluid, r, lib)
      ensures metrics.dragForce == dragForce && metrics.liftForce == liftForce
      ensures metrics.angleDegrees == r.angle * (180.0 / Pi)
      ensures metrics.coolingEfficiency == CoolingEfficiency(metrics.massFlowRate)
      ensures 0.0 <= metrics.coolingEfficiency < 1.0
      ensures metrics.fanPowerRequired == FanPower(metrics.pressureDrop, metrics.massFlowRate, fluid.density)
    {
      var massFlow := CalculateMassFlow(fluid, r, lib);
      var pressureDrop := CalculatePressureDrop(fluid, r, lib);
      var inlet := InletVelocity(fluid, r, lib);
      var outlet := OutletVelocity(fluid, r, lib);
      var cooling := CoolingEfficiency(massFlow);
      var fanPower := FanPower(pressureDrop, massFlow, fluid.density);
      metrics := RadiatorMetrics(r.angle * (180.0 / Pi), massFlow, pressureDrop, inlet, outlet,
                                 dragForce, liftForce, cooling, fanPower);
      metricsHistory := metricsHistory + [metrics];
    }
  }
}
