/** Obstacles placed in the wind tunnel (`obstacle.rs`): shapes checked in
    the obstacle's own rotated frame, the distance to their surface, and
    the `ObstacleManager` that stamps them into the solver's fields. The
    trigonometric and square-root functions arrive as a `MathLib`. */
module Obstacles {
  import opened Numerics
  import FluidSim

  datatype ObstacleShape =
    | Circle(radius: real)
    | Rectangle(width: real, height: real)
    | Airfoil(chord: real, thickness: real, airfoilAngle: real)
    | Cylinder(radius: real)

  /** Centre, rotation, shape, and the porous-medium parameters. */
  datatype Obstacle = Obstacle(x: real, y: real, angle: real, shape: ObstacleShape,
                               isPorous: bool, porosity: real, resistance: real)

  /** A distance as `distance_to_surface` reports it: a number, `f64::INFINITY`
      for an airfoil point outside the chord, or NaN for the `0/0` of an
      airfoil of zero chord. */
  datatype Distance = Finite(d: real) | Infinity | NotANumber

  /** `Obstacle::new_porous_rectangle`: a porous rotated rectangle. */
  function NewPorousRectangle(x: real, y: real, width: real, height: real, angle: real,
                              porosity: real, resistance: real): (o: Obstacle)
  {
    Obstacle(x, y, angle, Rectangle(width, height), true, porosity, resistance)
  }

  /** The point `(px, py)` in the obstacle's frame: translated to its
      centre and rotated by minus its angle. */
  function LocalFrame(o: Obstacle, px: real, py: real, lib: MathLib): (real, real)
  {
    var c, s := lib.cos(o.angle), lib.sin(o.angle);
    var dx, dy := px - o.x, py - o.y;
    (dx * c + dy * s, -dx * s + dy * c)
  }

  /** Half the thickness of the symmetric four-digit airfoil profile at
      the normalised chord position `xn`. */
  function HalfThickness(chord: real, thickness: real, xn: real, lib: MathLib): real
  {
    thickness * 0.5 * chord *
      (0.2969 * lib.sqrt(xn) - 0.1260 * xn - 0.3516 * xn * xn + 0.2843 * xn * xn * xn - 0.1015 * xn * xn * xn * xn)
  }

  /** A point outside the chord range, or any point of an airfoil of zero
      chord (whose normalised position is NaN and fails every comparison). */
  predicate OutsideChord(chord: real, lx: real)
  {
    lx < 0.0 || lx > chord || chord == 0.0
  }

  /** Containment in local coordinates. */
  predicate ShapeContains(shape: ObstacleShape, lx: real, ly: real, lib: MathLib)
  {
    match shape
    case Circle(r) => lx * lx + ly * ly <= r * r
    case Cylinder(r) => lx * lx + ly * ly <= r * r
    case Rectangle(w, ht) => Abs(lx) <= w * 0.5 && Abs(ly) <= ht * 0.5
    case Airfoil(chord, thickness, _) =>
      if OutsideChord(chord, lx) then false
      else Abs(ly) <= HalfThickness(chord, thickness, lx / chord, lib)
  }

  /** `Obstacle::contains_point`. An airfoil contains no point outside its
      chord range, and an airfoil of zero chord contains no point at all. */
  predicate ContainsPoint(o: Obstacle, px: real, py: real, lib: MathLib)
    ensures ContainsPoint(o, px, py, lib) && o.shape.Airfoil? ==>
      o.shape.chord != 0.0 && 0.0 <= LocalFrame(o, px, py, lib).0 <= o.shape.chord
  {
    var local := LocalFrame(o, px, py, lib);
    ShapeContains(o.shape, local.0, local.1, lib)
  }

  /** The squared distance from a local point to a `w` by `ht` rectangle:
      how far it lies beyond each half-extent, squared and summed. */
  function RectangleGap(w: real, ht: real, lx: real, ly: real): real
  {
    var gx := Max(Abs(lx) - w * 0.5, 0.0);
    var gy := Max(Abs(ly) - ht * 0.5, 0.0);
    gx * gx + gy * gy
  }

  /** Distance to the surface in local coordinates. */
  function ShapeDistance(shape: ObstacleShape, lx: real, ly: real, lib: MathLib): Distance
  {
    match shape
    case Circle(r) => Finite(Abs(lib.sqrt(lx * lx + ly * ly) - r))
    case Cylinder(r) => Finite(Abs(lib.sqrt(lx * lx + ly * ly) - r))
    case Rectangle(w, ht) => Finite(lib.sqrt(RectangleGap(w, ht, lx, ly)))
    case Airfoil(chord, thickness, _) =>
      if lx < 0.0 || lx > chord then Infinity
      else if chord == 0.0 then NotANumber
      else Finite(Abs(Abs(ly) - HalfThickness(chord, thickness, lx / chord, lib)))
  }

  /** `Obstacle::distance_to_surface`. Only an airfoil reports an infinite
      distance, and only an airfoil of zero chord a NaN; every other shape
      gives a finite number. */
  function DistanceToSurface(o: Obstacle, px: real, py: real, lib: MathLib): (r: Distance)
    ensures r.Infinity? ==> o.shape.Airfoil?
    ensures r.NotANumber? ==> o.shape.Airfoil? && o.shape.chord == 0.0
  {
    var local := LocalFrame(o, px, py, lib);
    ShapeDistance(o.shape, local.0, local.1, lib)
  }

  /** A circle and a cylinder of the same radius are the same obstacle. */
  lemma CircleIsCylinder(o: Obstacle, r: real, px: real, py: real, lib: MathLib)
    ensures ContainsPoint(o.(shape := Circle(r)), px, py, lib) == ContainsPoint(o.(shape := Cylinder(r)), px, py, lib)
    ensures DistanceToSurface(o.(shape := Circle(r)), px, py, lib) == DistanceToSurface(o.(shape := Cylinder(r)), px, py, lib)
  {
    assert LocalFrame(o.(shape := Circle(r)), px, py, lib) == LocalFrame(o.(shape := Cylinder(r)), px, py, lib);
  }

  /** The squared distance to a rectangle is never negative, and it is
      zero at every point the rectangle contains. */
  lemma RectangleGapOfContained(w: real, ht: real, lx: real, ly: real, lib: MathLib)
    ensures RectangleGap(w, ht, lx, ly) >= 0.0
    ensures ShapeContains(Rectangle(w, ht), lx, ly, lib) ==> RectangleGap(w, ht, lx, ly) == 0.0
  {
    var gx := Max(Abs(lx) - w * 0.5, 0.0);
    var gy := Max(Abs(ly) - ht * 0.5, 0.0);
    MulNonNeg(gx, gx);
    MulNonNeg(gy, gy);
  }

  /** With a square root that behaves as one, the rectangle's
      `distance_to_surface` is a non-negative number, zero at every point
      the rectangle contains. */
  lemma {:induction false} RectangleDistance(o: Obstacle, px: real, py: real, lib: MathLib)
    requires o.shape.Rectangle? && SqrtLaw(lib)
    ensures DistanceToSurface(o, px, py, lib).Finite?
    ensures DistanceToSurface(o, px, py, lib).d >= 0.0
    ensures ContainsPoint(o, px, py, lib) ==> DistanceToSurface(o, px, py, lib).d == 0.0
  {
    var local := LocalFrame(o, px, py, lib);
    var gap := RectangleGap(o.shape.width, o.shape.height, local.0, local.1);
    RectangleGapOfContained(o.shape.width, o.shape.height, local.0, local.1, lib);
    var root := lib.sqrt(gap);
    assert DistanceToSurface(o, px, py, lib) == Finite(root);
  }

  /** A rectangle with non-negative sides contains its own centre, whatever
      its rotation. */
  lemma RectangleContainsCentre(o: Obstacle, lib: MathLib)
    requires o.shape.Rectangle? && o.shape.width >= 0.0 && o.shape.height >= 0.0
    ensures ContainsPoint(o, o.x, o.y, lib)
  {
    var c, s := lib.cos(o.angle), lib.sin(o.angle);
    var dx, dy := o.x - o.x, o.y - o.y;
    assert dx == 0.0 && dy == 0.0;
    assert dx * c == 0.0 && dy * s == 0.0 && -dx * s == 0.0 && dy * c == 0.0;
    var local := LocalFrame(o, o.x, o.y, lib);
    assert local.0 == dx * c + dy * s == 0.0;
    assert local.1 == -dx * s + dy * c == 0.0;
    assert Abs(local.0) <= o.shape.width * 0.5;
    assert Abs(local.1) <= o.shape.height * 0.5;
  }

  /** An airfoil contains no point before its leading edge or beyond its
      trailing edge, and reports an infinite distance for such points. */
  lemma AirfoilOutsideChord(o: Obstacle, px: real, py: real, lib: MathLib)
    requires o.shape.Airfoil?
    requires var lx := LocalFrame(o, px, py, lib).0; lx < 0.0 || lx > o.shape.chord
    ensures !ContainsPoint(o, px, py, lib)
    ensures DistanceToSurface(o, px, py, lib) == Infinity
  {
  }

  // ---------------------------------------------------------------
  // Stamping one obstacle into the fields

  /** Every field the obstacle writes has the grid's shape. */
  predicate Shaped(a: array2<real>, numX: nat, numY: nat)
  {
    a.Length0 == numX && a.Length1 == numY
  }

  /** Cell `(a, b)` is marked by the first pass: inside `1..num_x-2` by
      `1..num_y-2` and its centre is inside the obstacle. */
  predicate CellMarked(o: Obstacle, a: int, b: int, numX: nat, numY: nat, h: real, lib: MathLib)
  {
    1 <= a < numX - 2 && 1 <= b < numY - 2 &&
    ContainsPoint(o, (a as real + 0.5) * h, (b as real + 0.5) * h, lib)
  }

  /** A face after the first pass handles one adjacent cell: scaled by
      the porosity when a porous obstacle marks that cell, else as it was. */
  function Porous(o: Obstacle, before: real, marked: bool): real
  {
    if marked && o.isPorous then before * o.porosity else before
  }

  /** The openness of a cell after the first pass. */
  function MarkedOpenness(o: Obstacle, before: real, marked: bool): real
  {
    if !marked then before else if o.isPorous then o.porosity else 0.0
  }

  /** A solid mark wipes the dye; a porous one keeps it. */
  function MarkedDye(o: Obstacle, before: real, marked: bool): real
  {
    if marked && !o.isPorous then 0.0 else before
  }

  /** Vertical face `(a, b)` is zeroed by the second pass: it is interior
      and a neighbouring cell is solid or its own point is inside. */
  predicate UFaceBlocked(o: Obstacle, s: array2<real>, a: int, b: int, numX: nat, numY: nat, h: real, lib: MathLib)
    requires Shaped(s, numX, numY)
    reads s
  {
    1 <= a < numX - 1 && 1 <= b < numY - 1 &&
    (s[a - 1, b] == 0.0 || s[a, b] == 0.0 || ContainsPoint(o, a as real * h, (b as real + 0.5) * h, lib))
  }

  /** Horizontal face `(a, b)` is zeroed by the second pass. */
  predicate VFaceBlocked(o: Obstacle, s: array2<real>, a: int, b: int, numX: nat, numY: nat, h: real, lib: MathLib)
    requires Shaped(s, numX, numY)
    reads s
  {
    1 <= a < numX - 1 && 1 <= b < numY - 1 &&
    (s[a, b - 1] == 0.0 || s[a, b] == 0.0 || ContainsPoint(o, (a as real + 0.5) * h, b as real * h, lib))
  }

  /** Vertical face `(a, b)` is blocked and the row-by-row scan standing at
      `(i, j)` has already visited it. */
  predicate UZeroedBy(o: Obstacle, s: array2<real>, a: int, b: int, i: int, j: int, numX: nat, numY: nat, h: real, lib: MathLib)
    requires Shaped(s, numX, numY)
    reads s
  {
    FluidSim.Before(a, b, i, j) && UFaceBlocked(o, s, a, b, numX, numY, h, lib)
  }

  /** Horizontal face `(a, b)` is blocked and already visited. */
  predicate VZeroedBy(o: Obstacle, s: array2<real>, a: int, b: int, i: int, j: int, numX: nat, numY: nat, h: real, lib: MathLib)
    requires Shaped(s, numX, numY)
    reads s
  {
    FluidSim.Before(a, b, i, j) && VFaceBlocked(o, s, a, b, numX, numY, h, lib)
  }

  /** Every entry of `a` lies in `[0, 1]`. */
  predicate UnitRange(a: array2<real>)
    reads a
  {
    forall i, j :: 0 <= i < a.Length0 && 0 <= j < a.Length1 ==> 0.0 <= a[i, j] <= 1.0
  }

  /** With an old openness and a porosity in `[0, 1]`, the marked
      openness stays in `[0, 1]`. */
  lemma MarkedOpennessInUnitRange(o: Obstacle, before: real, marked: bool)
    requires 0.0 <= before <= 1.0 && 0.0 <= o.porosity <= 1.0
    ensures 0.0 <= MarkedOpenness(o, before, marked) <= 1.0
  {
  }

  class ObstacleManager {
    var obstacles: seq<Obstacle>

    /** `ObstacleManager::new`: no obstacles. */
    constructor ()
      ensures obstacles == []
    {
      obstacles := [];
    }

    /** `add_obstacle` appends exactly one obstacle. */
    method AddObstacle(o: Obstacle)
      modifies this
      ensures obstacles == old(obstacles) + [o]
    {
      obstacles := obstacles + [o];
    }

    /** `clear` removes every obstacle. */
    method Clear()
      modifies this
      ensures obstacles == []
    {
      obstacles := [];
    }

    /** `ObstacleManager::contains_point`: some obstacle of the list
        contains the point. */
    predicate AnyObstacleContains(px: real, py: real, lib: MathLib)
      reads this
      ensures AnyObstacleContains(px, py, lib) <==>
        exists k :: 0 <= k < |obstacles| && ContainsPoint(obstacles[k], px, py, lib)
    {
      AnyContains(obstacles, px, py, lib)
    }

    /** The first pass of `apply_single_obstacle`: each marked cell takes
        the obstacle's porosity (porous) or becomes solid and loses its dye
        (solid), and a porous mark scales the cell's four faces by the
        porosity. Nothing outside the marked cells and their faces changes. */
    method MarkCells(o: Obstacle, s: array2<real>, u: array2<real>, v: array2<real>, m: array2<real>,
                     numX: nat, numY: nat, h: real, lib: MathLib)
      requires numX >= 2 && numY >= 2
      requires Shaped(s, numX, numY) && Shaped(u, numX, numY) && Shaped(v, numX, numY) && Shaped(m, numX, numY)
      requires s != u && s != v && s != m && u != v && u != m && v != m
      modifies s, u, v, m
      ensures forall a, b :: 0 <= a < numX && 0 <= b < numY ==>
        s[a, b] == MarkedOpenness(o, old(s[a, b]), CellMarked(o, a, b, numX, numY, h, lib))
      ensures forall a, b :: 0 <= a < numX && 0 <= b < numY ==>
        m[a, b] == MarkedDye(o, old(m[a, b]), CellMarked(o, a, b, numX, numY, h, lib))
      ensures forall a, b :: 0 <= a < numX && 0 <= b < numY ==>
        u[a, b] == Porous(o, Porous(o, old(u[a, b]), CellMarked(o, a - 1, b, numX, numY, h, lib)), CellMarked(o, a, b, numX, numY, h, lib))
      ensures forall a, b :: 0 <= a < numX && 0 <= b < numY ==>
        v[a, b] == Porous(o, Porous(o, old(v[a, b]), CellMarked(o, a, b - 1, numX, numY, h, lib)), CellMarked(o, a, b, numX, numY, h, lib))
    {
      // The cells marked so far, in scan order.
      ghost var marked: set<(int, int)> := {};
      var i := 1;
      while i < numX - 2
        invariant 1 <= i && (i <= numX - 2 || i == 1)
        invariant forall a, b :: (a, b) in marked <==> MarkedBy(o, a, b, i, 1, numX, numY, h, lib)
        invariant forall a, b :: 0 <= a < numX && 0 <= b < numY ==>
          s[a, b] == MarkedOpenness(o, old(s[a, b]), (a, b) in marked)
        invariant forall a, b :: 0 <= a < numX && 0 <= b < numY ==>
          m[a, b] == MarkedDye(o, old(m[a, b]), (a, b) in marked)
        invariant forall a, b :: 0 <= a < numX && 0 <= b < numY ==>
          u[a, b] == Porous(o, Porous(o, old(u[a, b]), (a - 1, b) in marked), (a, b) in marked)
        invariant forall a, b :: 0 <= a < numX && 0 <= b < numY ==>
          v[a, b] == Porous(o, Porous(o, old(v[a, b]), (a, b - 1) in marked), (a, b) in marked)
      {
        var j := 1;
        while j < numY - 2
          invariant 1 <= j && (j <= numY - 2 || j == 1)
          invariant forall a, b :: (a, b) in marked <==> MarkedBy(o, a, b, i, j, numX, numY, h, lib)
          invariant forall a, b :: 0 <= a < numX && 0 <= b < numY ==>
            s[a, b] == MarkedOpenness(o, old(s[a, b]), (a, b) in marked)
          invariant forall a, b :: 0 <= a < numX && 0 <= b < numY ==>
            m[a, b] == MarkedDye(o, old(m[a, b]), (a, b) in marked)
          invariant forall a, b :: 0 <= a < numX && 0 <= b < numY ==>
            u[a, b] == Porous(o, Porous(o, old(u[a, b]), (a - 1, b) in marked), (a, b) in marked)
          invariant forall a, b :: 0 <= a < numX && 0 <= b < numY ==>
            v[a, b] == Porous(o, Porous(o, old(v[a, b]), (a, b - 1) in marked), (a, b) in marked)
        {
          var hit := MarkCell(o, s, u, v, m, i, j, numX, numY, h, lib);
          if hit {
            marked := marked + {(i, j)};
          }
          MarkedByNextCell(o, i, j, numX, numY, h, lib);
          j := j + 1;
        }
        MarkedByNextColumn(o, i, j, numX, numY, h, lib);
        i := i + 1;
      }
      MarkedByAll(o, i, numX, numY, h, lib);
    }

    /** One cell of the first pass: if the obstacle contains the cell's
        centre, a porous obstacle gives the cell its porosity and scales
        its four faces by it, a solid one empties the cell and its dye.
        Nothing else is written. */
    method MarkCell(o: Obstacle, s: array2<real>, u: array2<real>, v: array2<real>, m: array2<real>,
                    i: nat, j: nat, numX: nat, numY: nat, h: real, lib: MathLib) returns (hit: bool)
      requires 1 <= i < numX - 2 && 1 <= j < numY - 2
      requires Shaped(s, numX, numY) && Shaped(u, numX, numY) && Shaped(v, numX, numY) && Shaped(m, numX, numY)
      requires s != u && s != v && s != m && u != v && u != m && v != m
      modifies s, u, v, m
      ensures hit == CellMarked(o, i, j, numX, numY, h, lib)
      ensures forall a, b :: 0 <= a < numX && 0 <= b < numY ==>
        s[a, b] == if a == i && b == j then MarkedOpenness(o, old(s[a, b]), hit) else old(s[a, b])
      ensures forall a, b :: 0 <= a < numX && 0 <= b < numY ==>
        m[a, b] == if a == i && b == j then MarkedDye(o, old(m[a, b]), hit) else old(m[a, b])
      ensures forall a, b :: 0 <= a < numX && 0 <= b < numY ==>
        u[a, b] == if (a == i || a == i + 1) && b == j then Porous(o, old(u[a, b]), hit) else old(u[a, b])
      ensures forall a, b :: 0 <= a < numX && 0 <= b < numY ==>
        v[a, b] == if a == i && (b == j || b == j + 1) then Porous(o, old(v[a, b]), hit) else old(v[a, b])
    {
      var px := (i as real + 0.5) * h;
      var py := (j as real + 0.5) * h;
      hit := ContainsPoint(o, px, py, lib);
      if hit {
        if o.isPorous {
          s[i, j] := o.porosity;
          ScaleCellFaces(u, v, i, j, o.porosity);
        } else {
          s[i, j] := 0.0;
          m[i, j] := 0.0;
        }
      }
    }

    /** Scales the four faces of cell `(i, j)` by `p` and writes nothing
        else. */
    method ScaleCellFaces(u: array2<real>, v: array2<real>, i: nat, j: nat, p: real)
      requires i + 1 < u.Length0 && j < u.Length1 && i < v.Length0 && j + 1 < v.Length1 && u != v
      modifies u, v
      ensures forall a, b :: 0 <= a < u.Length0 && 0 <= b < u.Length1 ==>
        u[a, b] == if (a == i || a == i + 1) && b == j then old(u[a, b]) * p else old(u[a, b])
      ensures forall a, b :: 0 <= a < v.Length0 && 0 <= b < v.Length1 ==>
        v[a, b] == if a == i && (b == j || b == j + 1) then old(v[a, b]) * p else old(v[a, b])
    {
      u[i, j] := u[i, j] * p;
      u[i + 1, j] := u[i + 1, j] * p;
      v[i, j] := v[i, j] * p;
      v[i, j + 1] := v[i, j + 1] * p;
    }

    /** The second pass of `apply_single_obstacle`: zeroes every interior
        face next to a solid cell or whose own point is inside the
        obstacle, porous or not, and writes nothing else. */
    method EnforceNoSlip(o: Obstacle, s: array2<real>, u: array2<real>, v: array2<real>,
                         numX: nat, numY: nat, h: real, lib: MathLib)
      requires numX >= 2 && numY >= 2
      requires Shaped(s, numX, numY) && Shaped(u, numX, numY) && Shaped(v, numX, numY)
      requires s != u && s != v && u != v
      modifies u, v
      ensures forall a, b :: 0 <= a < numX && 0 <= b < numY ==>
        u[a, b] == (if UFaceBlocked(o, s, a, b, numX, numY, h, lib) then 0.0 else old(u[a, b]))
      ensures forall a, b :: 0 <= a < numX && 0 <= b < numY ==>
        v[a, b] == (if VFaceBlocked(o, s, a, b, numX, numY, h, lib) then 0.0 else old(v[a, b]))
    {
      var i := 1;
      while i < numX - 1
        invariant 1 <= i <= numX - 1
        invariant forall a, b :: 0 <= a < numX && 0 <= b < numY ==>
          u[a, b] == (if UZeroedBy(o, s, a, b, i, 1, numX, numY, h, lib) then 0.0 else old(u[a, b]))
        invariant forall a, b :: 0 <= a < numX && 0 <= b < numY ==>
          v[a, b] == (if VZeroedBy(o, s, a, b, i, 1, numX, numY, h, lib) then 0.0 else old(v[a, b]))
      {
        var j := 1;
        while j < numY - 1
          invariant 1 <= j <= numY - 1
          invariant forall a, b :: 0 <= a < numX && 0 <= b < numY ==>
            u[a, b] == (if UZeroedBy(o, s, a, b, i, j, numX, numY, h, lib) then 0.0 else old(u[a, b]))
          invariant forall a, b :: 0 <= a < numX && 0 <= b < numY ==>
            v[a, b] == (if VZeroedBy(o, s, a, b, i, j, numX, numY, h, lib) then 0.0 else old(v[a, b]))
        {
          ZeroFacesAt(o, s, u, v, i, j, numX, numY, h, lib);
          forall a, b | 0 <= a < numX && 0 <= b < numY
            ensures UZeroedBy(o, s, a, b, i, j + 1, numX, numY, h, lib) ==
              (UZeroedBy(o, s, a, b, i, j, numX, numY, h, lib) || (a == i && b == j && UFaceBlocked(o, s, i, j, numX, numY, h, lib)))
            ensures VZeroedBy(o, s, a, b, i, j + 1, numX, numY, h, lib) ==
              (VZeroedBy(o, s, a, b, i, j, numX, numY, h, lib) || (a == i && b == j && VFaceBlocked(o, s, i, j, numX, numY, h, lib)))
          {
          }
          j := j + 1;
        }
        forall a, b | 0 <= a < numX && 0 <= b < numY
          ensures UZeroedBy(o, s, a, b, i + 1, 1, numX, numY, h, lib) == UZeroedBy(o, s, a, b, i, j, numX, numY, h, lib)
          ensures VZeroedBy(o, s, a, b, i + 1, 1, numX, numY, h, lib) == VZeroedBy(o, s, a, b, i, j, numX, numY, h, lib)
        {
        }
        i := i + 1;
      }
      forall a, b | 0 <= a < numX && 0 <= b < numY
        ensures UZeroedBy(o, s, a, b, i, 1, numX, numY, h, lib) == UFaceBlocked(o, s, a, b, numX, numY, h, lib)
        ensures VZeroedBy(o, s, a, b, i, 1, numX, numY, h, lib) == VFaceBlocked(o, s, a, b, numX, numY, h, lib)
      {
      }
    }

    /** One cell of the second pass: the vertical face `(i, j)` is zeroed
        when a cell beside it is solid or its point is inside the obstacle,
        and the horizontal face `(i, j)` likewise. Nothing else is
        written. */
    method ZeroFacesAt(o: Obstacle, s: array2<real>, u: array2<real>, v: array2<real>,
                       i: nat, j: nat, numX: nat, numY: nat, h: real, lib: MathLib)
      requires 1 <= i < numX - 1 && 1 <= j < numY - 1
      requires Shaped(s, numX, numY) && Shaped(u, numX, numY) && Shaped(v, numX, numY)
      requires s != u && s != v && u != v
      modifies u, v
      ensures forall a, b :: 0 <= a < numX && 0 <= b < numY ==>
        u[a, b] == (if a == i && b == j && UFaceBlocked(o, s, a, b, numX, numY, h, lib) then 0.0 else old(u[a, b]))
      ensures forall a, b :: 0 <= a < numX && 0 <= b < numY ==>
        v[a, b] == (if a == i && b == j && VFaceBlocked(o, s, a, b, numX, numY, h, lib) then 0.0 else old(v[a, b]))
    {
      var leftSolid := i > 0 && s[i - 1, j] == 0.0;
      var rightSolid := i < numX - 1 && s[i, j] == 0.0;
      if leftSolid || rightSolid || ContainsPoint(o, i as real * h, (j as real + 0.5) * h, lib) {
        u[i, j] := 0.0;
      }
      var bottomSolid := j > 0 && s[i, j - 1] == 0.0;
      var topSolid := j < numY - 1 && s[i, j] == 0.0;
      if bottomSolid || topSolid || ContainsPoint(o, (i as real + 0.5) * h, j as real * h, lib) {
        v[i, j] := 0.0;
      }
    }

    /** `apply_single_obstacle`: the two passes. The openness and dye are
        those of the first pass; every face is first scaled by the
        porosity of its marked neighbours and then zeroed if blocked in
        the resulting openness. A solid obstacle seals each marked cell:
        openness, dye and all four faces become zero. */
    method ApplySingleObstacle(o: Obstacle, s: array2<real>, u: array2<real>, v: array2<real>, m: array2<real>,
                               numX: nat, numY: nat, h: real, lib: MathLib)
      requires numX >= 2 && numY >= 2
      requires Shaped(s, numX, numY) && Shaped(u, numX, numY) && Shaped(v, numX, numY) && Shaped(m, numX, numY)
      requires s != u && s != v && s != m && u != v && u != m && v != m
      modifies s, u, v, m
      ensures forall a, b :: 0 <= a < numX && 0 <= b < numY ==>
        s[a, b] == MarkedOpenness(o, old(s[a, b]), CellMarked(o, a, b, numX, numY, h, lib))
      ensures forall a, b :: 0 <= a < numX && 0 <= b < numY ==>
        m[a, b] == MarkedDye(o, old(m[a, b]), CellMarked(o, a, b, numX, numY, h, lib))
      ensures forall a, b :: 0 <= a < numX && 0 <= b < numY ==>
        u[a, b] == if UFaceBlocked(o, s, a, b, numX, numY, h, lib) then 0.0
                   else Porous(o, Porous(o, old(u[a, b]), CellMarked(o, a - 1, b, numX, numY, h, lib)), CellMarked(o, a, b, numX, numY, h, lib))
      ensures forall a, b :: 0 <= a < numX && 0 <= b < numY ==>
        v[a, b] == if VFaceBlocked(o, s, a, b, numX, numY, h, lib) then 0.0
                   else Porous(o, Porous(o, old(v[a, b]), CellMarked(o, a, b - 1, numX, numY, h, lib)), CellMarked(o, a, b, numX, numY, h, lib))
      ensures !o.isPorous ==> forall a, b :: CellMarked(o, a, b, numX, numY, h, lib) ==>
        s[a, b] == 0.0 && m[a, b] == 0.0 && u[a, b] == 0.0 && u[a + 1, b] == 0.0 && v[a, b] == 0.0 && v[a, b + 1] == 0.0
      ensures old(UnitRange(s)) && 0.0 <= o.porosity <= 1.0 ==> UnitRange(s)
      ensures forall a, b :: 0 <= a < numX && 0 <= b < numY && OnRing(a, b, numX, numY) ==>
        s[a, b] == old(s[a, b]) && u[a, b] == old(u[a, b]) && v[a, b] == old(v[a, b]) && m[a, b] == old(m[a, b])
    {
      MarkCells(o, s, u, v, m, numX, numY, h, lib);
      EnforceNoSlip(o, s, u, v, numX, numY, h, lib);
      forall a, b | 0 <= a < numX && 0 <= b < numY && OnRing(a, b, numX, numY)
        ensures u[a, b] == old(u[a, b]) && v[a, b] == old(v[a, b])
      {
        assert !CellMarked(o, a, b, numX, numY, h, lib) && !CellMarked(o, a - 1, b, numX, numY, h, lib) && !CellMarked(o, a, b - 1, numX, numY, h, lib);
        assert !UFaceBlocked(o, s, a, b, numX, numY, h, lib) && !VFaceBlocked(o, s, a, b, numX, numY, h, lib);
      }
      if !o.isPorous {
        forall a, b | CellMarked(o, a, b, numX, numY, h, lib)
          ensures u[a, b] == 0.0 && u[a + 1, b] == 0.0 && v[a, b] == 0.0 && v[a, b + 1] == 0.0
        {
          assert s[a, b] == 0.0;
          assert UFaceBlocked(o, s, a, b, numX, numY, h, lib) && UFaceBlocked(o, s, a + 1, b, numX, numY, h, lib);
          assert VFaceBlocked(o, s, a, b, numX, numY, h, lib) && VFaceBlocked(o, s, a, b + 1, numX, numY, h, lib);
        }
      }
    }

    /** `apply_to_fluid`: stamps the obstacles in list order. The ghost
        ring of every field is left alone; openness in `[0, 1]` stays there
        when every porosity is in `[0, 1]`; and when every obstacle is
        solid, every cell any of them marks ends solid and dye-free. */
    method ApplyToFluid(s: array2<real>, u: array2<real>, v: array2<real>, m: array2<real>,
                        numX: nat, numY: nat, h: real, lib: MathLib)
      requires numX >= 2 && numY >= 2
      requires Shaped(s, numX, numY) && Shaped(u, numX, numY) && Shaped(v, numX, numY) && Shaped(m, numX, numY)
      requires s != u && s != v && s != m && u != v && u != m && v != m
      modifies s, u, v, m
      ensures forall a, b :: 0 <= a < numX && 0 <= b < numY && OnRing(a, b, numX, numY) ==>
        s[a, b] == old(s[a, b]) && u[a, b] == old(u[a, b]) && v[a, b] == old(v[a, b]) && m[a, b] == old(m[a, b])
      ensures old(UnitRange(s)) && (forall k :: 0 <= k < |obstacles| ==> 0.0 <= obstacles[k].porosity <= 1.0) ==> UnitRange(s)
      ensures (forall k :: 0 <= k < |obstacles| ==> !obstacles[k].isPorous) ==>
        forall k, a, b :: 0 <= k < |obstacles| && CellMarked(obstacles[k], a, b, numX, numY, h, lib) ==> s[a, b] == 0.0 && m[a, b] == 0.0
    {
      var n := 0;
      while n < |obstacles|
        invariant 0 <= n <= |obstacles|
        invariant forall a, b :: 0 <= a < numX && 0 <= b < numY && OnRing(a, b, numX, numY) ==>
          s[a, b] == old(s[a, b]) && u[a, b] == old(u[a, b]) && v[a, b] == old(v[a, b]) && m[a, b] == old(m[a, b])
        invariant old(UnitRange(s)) && (forall k :: 0 <= k < |obstacles| ==> 0.0 <= obstacles[k].porosity <= 1.0) ==> UnitRange(s)
        invariant (forall k :: 0 <= k < |obstacles| ==> !obstacles[k].isPorous) ==>
          forall k, a, b :: 0 <= k < n && CellMarked(obstacles[k], a, b, numX, numY, h, lib) ==> s[a, b] == 0.0 && m[a, b] == 0.0
      {
        ApplySingleObstacle(obstacles[n], s, u, v, m, numX, numY, h, lib);
        n := n + 1;
      }
    }
  }

  /** `(a, b)` is on the outer ring of ghost cells and boundary faces. */
  predicate OnRing(a: int, b: int, numX: nat, numY: nat)
  {
    a == 0 || b == 0 || a == numX - 1 || b == numY - 1
  }

  /** `iter().any(...)` over the list: true exactly when some obstacle of
      the list contains the point. */
  predicate AnyContains(obs: seq<Obstacle>, px: real, py: real, lib: MathLib)
    ensures AnyContains(obs, px, py, lib) <==> exists k :: 0 <= k < |obs| && ContainsPoint(obs[k], px, py, lib)
  {
    if |obs| == 0 then false
    else ContainsPoint(obs[0], px, py, lib) || AnyContains(obs[1..], px, py, lib)
  }

  /** Cell (a, b) is marked and a row-major scan standing at (i, j) has
      already visited it. */
  predicate MarkedBy(o: Obstacle, a: int, b: int, i: int, j: int, numX: nat, numY: nat, h: real, lib: MathLib)
  {
    FluidSim.Before(a, b, i, j) && CellMarked(o, a, b, numX, numY, h, lib)
  }

  /** One step of the scan visits exactly cell (i, j). */
  lemma MarkedByNextCell(o: Obstacle, i: int, j: int, numX: nat, numY: nat, h: real, lib: MathLib)
    ensures forall a, b ::
      MarkedBy(o, a, b, i, j + 1, numX, numY, h, lib) ==
      (MarkedBy(o, a, b, i, j, numX, numY, h, lib) || (a == i && b == j && CellMarked(o, i, j, numX, numY, h, lib)))
  {
    forall a, b
      ensures MarkedBy(o, a, b, i, j + 1, numX, numY, h, lib) ==
        (MarkedBy(o, a, b, i, j, numX, numY, h, lib) || (a == i && b == j && CellMarked(o, i, j, numX, numY, h, lib)))
    {
      if a == i && b == j {
        assert FluidSim.Before(a, b, i, j + 1) && !FluidSim.Before(a, b, i, j);
      } else {
        assert FluidSim.Before(a, b, i, j + 1) == FluidSim.Before(a, b, i, j);
      }
    }
  }

  /** Finishing column i of the scan is starting column i + 1. */
  lemma MarkedByNextColumn(o: Obstacle, i: int, j: int, numX: nat, numY: nat, h: real, lib: MathLib)
    requires j >= numY - 2
    ensures forall a, b :: MarkedBy(o, a, b, i, j, numX, numY, h, lib) == MarkedBy(o, a, b, i + 1, 1, numX, numY, h, lib)
  {
    forall a, b
      ensures MarkedBy(o, a, b, i, j, numX, numY, h, lib) == MarkedBy(o, a, b, i + 1, 1, numX, numY, h, lib)
    {
      if CellMarked(o, a, b, numX, numY, h, lib) {
        assert 1 <= b < numY - 1;
        assert FluidSim.Before(a, b, i, j) == FluidSim.Before(a, b, i + 1, 1);
      }
    }
  }

  /** A scan past the last interior column has visited every marked cell. */
  lemma MarkedByAll(o: Obstacle, i: int, numX: nat, numY: nat, h: real, lib: MathLib)
    requires i >= numX - 2
    ensures forall a, b :: MarkedBy(o, a, b, i, 1, numX, numY, h, lib) == CellMarked(o, a, b, numX, numY, h, lib)
  {
    forall a, b
      ensures MarkedBy(o, a, b, i, 1, numX, numY, h, lib) == CellMarked(o, a, b, numX, numY, h, lib)
    {
      if CellMarked(o, a, b, numX, numY, h, lib) {
        assert a < numX - 1 && FluidSim.Before(a, b, i, 1);
      }
    }
  }
}
