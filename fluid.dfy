/** The MAC-grid solver of the wind tunnel (`Fluid`): a staggered grid of
    `num_x` by `num_y` cells (one ghost layer on every side), horizontal
    velocity `u` on vertical faces, vertical velocity `v` on horizontal
    faces, and the cell-centred pressure `p`, openness `s` and dye `m`.
    Every field is an `array2<real>` that the steps update in place. */
module FluidSim {
  import opened Numerics

  /** Which staggered sub-grid a sample is read from. */
  datatype FieldType = U | V | Smoke

  /** One axis of a bilinear stencil: the lower and the upper node and the
      fraction of the way from the lower node to the upper one. */
  datatype Axis = Axis(lo: nat, hi: nat, t: real)

  /** A value copy of the three fields the pressure projection writes:
      `f.u[i][j]` is the horizontal velocity on face `(i, j)`, and so on. */
  datatype Flow = Flow(u: seq<seq<real>>, v: seq<seq<real>>, p: seq<seq<real>>)

  /** How far a pressure sweep has got: the fields so far and the largest
      pressure change made so far. */
  datatype Progress = Progress(flow: Flow, change: real)

  /** The largest pressure change below which the projection stops early. */
  const ConvergenceThreshold: real := 0.000001

  /** Cell `(a, b)` comes before cell `(i, j)` in the row-by-row sweep
      order of the nested loops (`i` outer, `j` inner). */
  predicate Before(a: int, b: int, i: int, j: int)
  {
    a < i || (a == i && b < j)
  }

  /** The coordinate of `sample_field` in grid units: clamped into
      `[h, (n-1)h]`, moved back by the sub-grid offset, times `1/h`. */
  function ScaledCoordinate(c: real, offset: real, h: real, n: nat): real
    requires h > 0.0
  {
    (Min(Max(c, h), (n as real - 1.0) * h) - offset) * (1.0 / h)
  }

  lemma ScaledCoordinateRange(c: real, offset: real, h: real, n: nat)
    requires h > 0.0 && n >= 3 && (offset == 0.0 || offset == 0.5 * h)
    ensures 0.5 <= ScaledCoordinate(c, offset, h, n) <= n as real - 1.0
  {
    ScaleMono(h, 1.0, n as real - 1.0);
    ClampBounds(c, h, (n as real - 1.0) * h);
    DivBounds(Min(Max(c, h), (n as real - 1.0) * h) - offset, h, 0.5, n as real - 1.0);
  }

  /** One axis of `sample_field`: the lower node is the floor of the scaled
      coordinate (saturating at 0, as a cast to `usize` does, and capped at
      `n-1`), the upper one the next node capped at `n-1`, and the
      fraction is what the floor cut off. */
  function FieldAxis(c: real, offset: real, h: real, n: nat): (a: Axis)
    requires h > 0.0 && n >= 3 && (offset == 0.0 || offset == 0.5 * h)
    ensures a.lo < n && a.hi < n
    ensures a.hi == a.lo || a.hi == a.lo + 1
    ensures 0.0 <= a.t <= 1.0
  {
    var g := ScaledCoordinate(c, offset, h, n);
    ScaledCoordinateRange(c, offset, h, n);
    var f := g.Floor;
    var lo := if f < 0 then 0 else if f > n - 1 then n - 1 else f;
    var hi := if lo + 1 < n - 1 then lo + 1 else n - 1;
    Axis(lo, hi, g - lo as real)
  }

  /** Node `k` of a sub-grid at offset 0 (indices 1 to `n-1`) or `h/2`
      (indices 1 to `n-2`) lies inside the clamp range `[h, (n-1)h]`. */
  lemma NodeInsideClamp(k: nat, offset: real, h: real, n: nat)
    requires h > 0.0 && n >= 3 && 1 <= k
    requires (offset == 0.0 && k <= n - 1) || (offset == 0.5 * h && k <= n - 2)
    ensures h <= k as real * h + offset <= (n as real - 1.0) * h
  {
    ScaleMono(h, 1.0, k as real);
    if offset == 0.0 {
      ScaleMono(h, k as real, n as real - 1.0);
    } else {
      ScaleMono(h, k as real, n as real - 2.0);
    }
  }

  /** At a node of the sub-grid that the clamp leaves in place the stencil
      sits exactly on that node. */
  lemma {:induction false} FieldAxisAtNode(k: nat, offset: real, h: real, n: nat)
    requires h > 0.0 && n >= 3 && 1 <= k
    requires (offset == 0.0 && k <= n - 1) || (offset == 0.5 * h && k <= n - 2)
    ensures FieldAxis(k as real * h + offset, offset, h, n).lo == k
    ensures FieldAxis(k as real * h + offset, offset, h, n).t == 0.0
  {
    var c := k as real * h + offset;
    NodeInsideClamp(k, offset, h, n);
    assert Min(Max(c, h), (n as real - 1.0) * h) == c;
    CancelSpacing(k as real, h);
    assert ScaledCoordinate(c, offset, h, n) == k as real;
  }

  /** Copies every entry of `src` into `dst` (ndarray's `assign`). */
  method CopyInto(dst: array2<real>, src: array2<real>)
    requires dst != src && dst.Length0 == src.Length0 && dst.Length1 == src.Length1
    modifies dst
    ensures forall a, b :: 0 <= a < dst.Length0 && 0 <= b < dst.Length1 ==> dst[a, b] == src[a, b]
  {
    var i := 0;
    while i < dst.Length0
      invariant 0 <= i <= dst.Length0
      invariant forall a, b :: 0 <= a < i && 0 <= b < dst.Length1 ==> dst[a, b] == src[a, b]
    {
      var j := 0;
      while j < dst.Length1
        invariant 0 <= j <= dst.Length1
        invariant forall a, b :: 0 <= a < i && 0 <= b < dst.Length1 ==> dst[a, b] == src[a, b]
        invariant forall b :: 0 <= b < j ==> dst[i, b] == src[i, b]
      {
        dst[i, j] := src[i, j];
        j := j + 1;
      }
      i := i + 1;
    }
  }

  /** Sets every entry of `a` to `x` (ndarray's `fill`). */
  method Fill(a: array2<real>, x: real)
    modifies a
    ensures forall i, j :: 0 <= i < a.Length0 && 0 <= j < a.Length1 ==> a[i, j] == x
  {
    var i := 0;
    while i < a.Length0
      invariant 0 <= i <= a.Length0
      invariant forall c, d :: 0 <= c < i && 0 <= d < a.Length1 ==> a[c, d] == x
    {
      var j := 0;
      while j < a.Length1
        invariant 0 <= j <= a.Length1
        invariant forall c, d :: 0 <= c < i && 0 <= d < a.Length1 ==> a[c, d] == x
        invariant forall d :: 0 <= d < j ==> a[i, d] == x
      {
        a[i, j] := x;
        j := j + 1;
      }
      i := i + 1;
    }
  }

  /** Every entry of `a` lies in `[lo, hi]`. */
  predicate Within(a: array2<real>, lo: real, hi: real)
    reads a
  {
    forall i, j :: 0 <= i < a.Length0 && 0 <= j < a.Length1 ==> lo <= a[i, j] <= hi
  }

  /** Rows relaxed next to each wall by the boundary-layer heuristic. */
  const WallDistance: nat := 3

  /** The weight `1 - offset/3` of the boundary-layer heuristic. */
  function Blend(offset: int): real
  {
    1.0 - offset as real / WallDistance as real
  }

  /** The velocity the boundary-layer heuristic pulls a near-wall face
      towards, `offset` rows from the wall. */
  function WallTarget(inflow: real, offset: int): real
  {
    inflow * (1.0 - 0.1 * Blend(offset))
  }

  /** One band update of `u`: 80% of the old value, 20% of the target. */
  function BandRelax(x: real, inflow: real, offset: int): real
  {
    x * 0.8 + WallTarget(inflow, offset) * 0.2
  }

  /** One core update of `u`: 95% of the old value, 5% of the inflow. */
  function CoreRelax(x: real, inflow: real): real
  {
    x * 0.95 + inflow * 0.05
  }

  /** The `v` written `offset` rows below the top wall. */
  function TopSuction(offset: int): real
  {
    -0.05 * Blend(offset)
  }

  /** The `v` written `offset` rows above the bottom wall. */
  function BottomSuction(offset: int): real
  {
    0.05 * Blend(offset)
  }

  /** A band update closes a fifth of the gap to the wall target, and a
      core update a twentieth of the gap to the inflow speed; the targets
      themselves are fixed points. */
  lemma RelaxationContracts(x: real, inflow: real, offset: int)
    ensures Abs(BandRelax(x, inflow, offset) - WallTarget(inflow, offset)) == 0.8 * Abs(x - WallTarget(inflow, offset))
    ensures Abs(CoreRelax(x, inflow) - inflow) == 0.95 * Abs(x - inflow)
  {
    var t := WallTarget(inflow, offset);
    assert BandRelax(x, inflow, offset) - t == 0.8 * (x - t);
    assert CoreRelax(x, inflow) - inflow == 0.95 * (x - inflow);
  }

  /** In the three rows next to a wall the suction is at most `0.05 * 2/3`
      in size, negative below the top wall and positive above the bottom
      wall, and vanishes in the third row. */
  lemma SuctionBounds(offset: int)
    requires 1 <= offset <= WallDistance
    ensures -0.05 * 2.0 / 3.0 <= TopSuction(offset) <= 0.0
    ensures 0.0 <= BottomSuction(offset) <= 0.05 * 2.0 / 3.0
    ensures offset == WallDistance ==> TopSuction(offset) == 0.0 && BottomSuction(offset) == 0.0
  {
  }

  class Fluid {
    const density: real
    const numX: nat
    const numY: nat
    const h: real
    const u: array2<real>
    const v: array2<real>
    const newU: array2<real>
    const newV: array2<real>
    const p: array2<real>
    const s: array2<real>
    const m: array2<real>
    const newM: array2<real>

    predicate Sized(a: array2<real>)
    {
      a.Length0 == numX && a.Length1 == numY
    }

    /** The grid has an interior of at least one cell, a positive spacing,
        eight fields of the grid's size, and no two fields share storage. */
    predicate Valid()
    {
      3 <= numX && 3 <= numY && h > 0.0 &&
      Sized(u) && Sized(v) && Sized(newU) && Sized(newV) &&
      Sized(p) && Sized(s) && Sized(m) && Sized(newM) &&
      u != v && u != newU && u != newV && u != p && u != s && u != m && u != newM &&
      v != newU && v != newV && v != p && v != s && v != m && v != newM &&
      newU != newV && newU != p && newU != s && newU != m && newU != newM &&
      newV != p && newV != s && newV != m && newV != newM &&
      p != s && p != m && p != newM &&
      s != m && s != newM &&
      m != newM
    }

    predicate InGrid(a: int, b: int)
    {
      0 <= a < numX && 0 <= b < numY
    }

    /** `Fluid::new`: the requested interior plus one ghost cell on every
        side, every field zero except the openness, which is all open. */
    constructor (density: real, interiorX: nat, interiorY: nat, h: real)
      requires interiorX >= 1 && interiorY >= 1 && h > 0.0
      ensures Valid()
      ensures this.density == density && this.h == h
      ensures numX == interiorX + 2 && numY == interiorY + 2
      ensures fresh(u) && fresh(v) && fresh(newU) && fresh(newV) && fresh(p) && fresh(s) && fresh(m) && fresh(newM)
      ensures forall a, b :: InGrid(a, b) ==>
        u[a, b] == 0.0 && v[a, b] == 0.0 && newU[a, b] == 0.0 && newV[a, b] == 0.0 &&
        p[a, b] == 0.0 && m[a, b] == 0.0 && newM[a, b] == 0.0 && s[a, b] == 1.0
    {
      var tx, ty := interiorX + 2, interiorY + 2;
      this.density := density;
      this.numX := tx;
      this.numY := ty;
      this.h := h;
      u := new real[tx, ty]((i, j) => 0.0);
      v := new real[tx, ty]((i, j) => 0.0);
      newU := new real[tx, ty]((i, j) => 0.0);
      newV := new real[tx, ty]((i, j) => 0.0);
      p := new real[tx, ty]((i, j) => 0.0);
      s := new real[tx, ty]((i, j) => 1.0);
      m := new real[tx, ty]((i, j) => 0.0);
      newM := new real[tx, ty]((i, j) => 0.0);
    }

    // ---------------------------------------------------------------
    // Gravity

    /** Vertical face `(i, j)` receives gravity: it lies in the swept range
        and both cells it separates are open. */
    predicate GravityFace(i: int, j: int)
      requires Valid()
      reads s
    {
      1 <= i < numX && 1 <= j < numY - 1 && s[i, j] != 0.0 && s[i, j - 1] != 0.0
    }

    /** `integrate`: adds `gravity * dt` to exactly the faces between two
        open cells, and to nothing else. */
    method Integrate(dt: real, gravity: real)
      requires Valid()
      modifies v
      ensures forall a, b :: InGrid(a, b) ==>
        v[a, b] == (if GravityFace(a, b) then old(v[a, b]) + gravity * dt else old(v[a, b]))
    {
      var i := 1;
      while i < numX
        invariant 1 <= i <= numX
        invariant forall a, b :: InGrid(a, b) ==>
          v[a, b] == (if a < i && GravityFace(a, b) then old(v[a, b]) + gravity * dt else old(v[a, b]))
      {
        var j := 1;
        while j < numY - 1
          invariant 1 <= j <= numY - 1
          invariant forall a, b :: InGrid(a, b) ==>
            v[a, b] == (if Before(a, b, i, j) && GravityFace(a, b) then old(v[a, b]) + gravity * dt else old(v[a, b]))
        {
          if s[i, j] != 0.0 && s[i, j - 1] != 0.0 {
            v[i, j] := v[i, j] + gravity * dt;
          }
          j := j + 1;
        }
        i := i + 1;
      }
    }

    // ---------------------------------------------------------------
    // Pressure projection

    /** Sum of the openness of the four neighbours of cell `(i, j)`. */
    function NeighbourSum(i: nat, j: nat): real
      requires Valid() && 1 <= i < numX - 1 && 1 <= j < numY - 1
      reads s
    {
      s[i - 1, j] + s[i + 1, j] + s[i, j - 1] + s[i, j + 1]
    }

    /** The net outflow of cell `(i, j)` through its four faces. */
    function Divergence(i: nat, j: nat): real
      requires Valid() && 1 <= i < numX - 1 && 1 <= j < numY - 1
      reads u, v
    {
      u[i + 1, j] - u[i, j] + v[i, j + 1] - v[i, j]
    }

    /** The projection updates cell `(i, j)`: it is interior, open, and has
        at least some open neighbour weight. Every other cell is skipped. */
    predicate Relaxable(i: int, j: int)
      requires Valid()
      reads s
    {
      1 <= i < numX - 1 && 1 <= j < numY - 1 && s[i, j] != 0.0 && NeighbourSum(i, j) != 0.0
    }

    /** The over-relaxed correction of one cell. */
    function Correction(i: nat, j: nat, overRelaxation: real): real
      requires Valid() && Relaxable(i, j)
      reads u, v, s
    {
      -Divergence(i, j) / NeighbourSum(i, j) * overRelaxation
    }

    /** One Gauss–Seidel update of cell `(i, j)`. The cell's divergence is
        scaled by `1 - ω` (so it vanishes for `ω = 1`), its pressure grows
        by `cp` times the correction, and only the four faces of the cell
        move, each by the correction weighted by its neighbour's openness. */
    method RelaxCell(i: nat, j: nat, cp: real, overRelaxation: real) returns (pChange: real)
      requires Valid() && Relaxable(i, j)
      modifies u, v, p
      ensures Divergence(i, j) == (1.0 - overRelaxation) * old(Divergence(i, j))
      ensures pChange == cp * old(Correction(i, j, overRelaxation))
      ensures p[i, j] == old(p[i, j]) + pChange
      ensures forall a, b :: InGrid(a, b) && (a, b) != (i, j) ==> p[a, b] == old(p[a, b])
      ensures u[i, j] == old(u[i, j]) - s[i - 1, j] * old(Correction(i, j, overRelaxation))
      ensures u[i + 1, j] == old(u[i + 1, j]) + s[i + 1, j] * old(Correction(i, j, overRelaxation))
      ensures forall a, b :: InGrid(a, b) && (a, b) != (i, j) && (a, b) != (i + 1, j) ==> u[a, b] == old(u[a, b])
      ensures v[i, j] == old(v[i, j]) - s[i, j - 1] * old(Correction(i, j, overRelaxation))
      ensures v[i, j + 1] == old(v[i, j + 1]) + s[i, j + 1] * old(Correction(i, j, overRelaxation))
      ensures forall a, b :: InGrid(a, b) && (a, b) != (i, j) && (a, b) != (i, j + 1) ==> v[a, b] == old(v[a, b])
    {
      var sx0, sx1, sy0, sy1 := s[i - 1, j], s[i + 1, j], s[i, j - 1], s[i, j + 1];
      var sSum := sx0 + sx1 + sy0 + sy1;
      var div := u[i + 1, j] - u[i, j] + v[i, j + 1] - v[i, j];
      var corr := -div / sSum;
      corr := corr * overRelaxation;
      assert corr == Correction(i, j, overRelaxation);
      assert corr * sSum == -div * overRelaxation by {
        assert (-div / sSum) * sSum == -div;
      }
      pChange := cp * corr;
      p[i, j] := p[i, j] + pChange;
      u[i, j] := u[i, j] - sx0 * corr;
      u[i + 1, j] := u[i + 1, j] + sx1 * corr;
      v[i, j] := v[i, j] - sy0 * corr;
      v[i, j + 1] := v[i, j + 1] + sy1 * corr;
      assert Divergence(i, j) == div + corr * sSum;
    }

    // Value copies, so that a sweep can be specified cell by cell in the
    // order the loops visit the cells (`i` outer, `j` inner).

    /** `g` has the shape of the grid. */
    predicate Shaped(g: seq<seq<real>>)
    {
      |g| == numX && forall k :: 0 <= k < |g| ==> |g[k]| == numY
    }

    predicate FlowShaped(f: Flow)
    {
      Shaped(f.u) && Shaped(f.v) && Shaped(f.p)
    }

    /** The value copy of array `a`. */
    ghost function Snapshot(a: array2<real>): (g: seq<seq<real>>)
      requires Valid() && Sized(a)
      reads a
      ensures Shaped(g)
      ensures forall i, j :: InGrid(i, j) ==> g[i][j] == a[i, j]
    {
      seq(numX, i requires 0 <= i < numX reads a =>
        seq(numY, j requires 0 <= j < numY reads a => a[i, j]))
    }

    /** The value copy of the velocities and the pressure. */
    ghost function Current(): (f: Flow)
      requires Valid()
      reads u, v, p
      ensures FlowShaped(f)
    {
      Flow(Snapshot(u), Snapshot(v), Snapshot(p))
    }

    /** The velocity and pressure arrays hold exactly the values of `f`. */
    ghost predicate Holds(f: Flow)
      requires Valid()
      reads u, v, p
    {
      FlowShaped(f) &&
      forall a, b :: InGrid(a, b) ==> u[a, b] == f.u[a][b] && v[a, b] == f.v[a][b] && p[a, b] == f.p[a][b]
    }

    /** `g` is a value copy of the openness. */
    ghost predicate OpennessIs(g: seq<seq<real>>)
      requires Valid()
      reads s
    {
      Shaped(g) && forall a, b :: InGrid(a, b) ==> s[a, b] == g[a][b]
    }

    /** The openness weight of the four neighbours of cell `(i, j)` in `g`. */
    function OpenSum(g: seq<seq<real>>, i: int, j: int): real
      requires Valid() && Shaped(g) && 1 <= i < numX - 1 && 1 <= j < numY - 1
    {
      g[i - 1][j] + g[i + 1][j] + g[i][j - 1] + g[i][j + 1]
    }

    /** `Relaxable` on a value copy `g` of the openness. */
    predicate RelaxableIn(g: seq<seq<real>>, i: int, j: int)
      requires Valid() && Shaped(g)
    {
      1 <= i < numX - 1 && 1 <= j < numY - 1 && g[i][j] != 0.0 && OpenSum(g, i, j) != 0.0
    }

    /** `Divergence` on a value copy. */
    function DivergenceIn(f: Flow, i: int, j: int): real
      requires Valid() && FlowShaped(f) && 1 <= i < numX - 1 && 1 <= j < numY - 1
    {
      f.u[i + 1][j] - f.u[i][j] + f.v[i][j + 1] - f.v[i][j]
    }

    /** `Correction` on value copies. */
    function CorrectionIn(f: Flow, g: seq<seq<real>>, i: int, j: int, overRelaxation: real): real
      requires Valid() && FlowShaped(f) && Shaped(g) && RelaxableIn(g, i, j)
    {
      -DivergenceIn(f, i, j) / OpenSum(g, i, j) * overRelaxation
    }

    /** The fields after the projection visits cell `(i, j)`: a skipped
        cell leaves them alone, an updated one moves its pressure by `cp`
        times the correction and its four faces by the correction weighted
        by the neighbour's openness. */
    function CellRelaxed(f: Flow, g: seq<seq<real>>, i: int, j: int, cp: real, overRelaxation: real): (r: Flow)
      requires Valid() && FlowShaped(f) && Shaped(g) && 1 <= i < numX - 1 && 1 <= j < numY - 1
      ensures FlowShaped(r)
    {
      if !RelaxableIn(g, i, j) then f
      else
        var c := CorrectionIn(f, g, i, j, overRelaxation);
        Flow(f.u[i := f.u[i][j := f.u[i][j] - g[i - 1][j] * c]][i + 1 := f.u[i + 1][j := f.u[i + 1][j] + g[i + 1][j] * c]],
             f.v[i := f.v[i][j := f.v[i][j] - g[i][j - 1] * c][j + 1 := f.v[i][j + 1] + g[i][j + 1] * c]],
             f.p[i := f.p[i][j := f.p[i][j] + cp * c]])
    }

    /** The running largest pressure change after the projection visits
        cell `(i, j)`: a skipped cell leaves it alone. */
    function CellChange(f: Flow, g: seq<seq<real>>, i: int, j: int, cp: real, overRelaxation: real, maxSoFar: real): real
      requires Valid() && FlowShaped(f) && Shaped(g) && 1 <= i < numX - 1 && 1 <= j < numY - 1
    {
      if RelaxableIn(g, i, j) then Max(maxSoFar, Abs(cp * CorrectionIn(f, g, i, j, overRelaxation))) else maxSoFar
    }

    /** `(i, j)` is a position of the sweep loops: a cell of an updated
        column, the end of one (`j == numY-1`), or `(numX-1, 1)`, the end
        of the whole sweep. */
    predicate InSweep(i: int, j: int)
    {
      (1 <= i < numX - 1 && 1 <= j <= numY - 1) || (i == numX - 1 && j == 1)
    }

    /** Cell `(a, b)` is updated by the projection before it reaches `(i, j)`. */
    predicate UpdatedBefore(g: seq<seq<real>>, a: int, b: int, i: int, j: int)
      requires Valid() && Shaped(g)
    {
      Before(a, b, i, j) && RelaxableIn(g, a, b)
    }

    /** The fields and the running largest pressure change after the
        projection visits every cell before `(i, j)` in the loops' order:
        `i` outer and `j` inner, both from 1, the change from zero. */
    function Visited(f: Flow, g: seq<seq<real>>, i: int, j: int, cp: real, overRelaxation: real): (r: Progress)
      requires Valid() && FlowShaped(f) && Shaped(g) && InSweep(i, j)
      ensures FlowShaped(r.flow)
      decreases i, j
    {
      if j == 1 then
        (if i == 1 then Progress(f, 0.0) else Visited(f, g, i - 1, numY - 1, cp, overRelaxation))
      else
        var q := Visited(f, g, i, j - 1, cp, overRelaxation);
        Progress(CellRelaxed(q.flow, g, i, j - 1, cp, overRelaxation),
                 CellChange(q.flow, g, i, j - 1, cp, overRelaxation, q.change))
    }

    /** The fields after one whole Gauss–Seidel sweep. */
    function Swept(f: Flow, g: seq<seq<real>>, cp: real, overRelaxation: real): (r: Flow)
      requires Valid() && FlowShaped(f) && Shaped(g)
      ensures FlowShaped(r)
    {
      Visited(f, g, numX - 1, 1, cp, overRelaxation).flow
    }

    /** The largest pressure change of one whole sweep. */
    function SweepChange(f: Flow, g: seq<seq<real>>, cp: real, overRelaxation: real): real
      requires Valid() && FlowShaped(f) && Shaped(g)
    {
      Visited(f, g, numX - 1, 1, cp, overRelaxation).change
    }

    /** The fields after `k` sweeps. */
    function Projected(f: Flow, g: seq<seq<real>>, k: nat, cp: real, overRelaxation: real): (r: Flow)
      requires Valid() && FlowShaped(f) && Shaped(g)
      ensures FlowShaped(r)
      decreases k
    {
      if k == 0 then f else Swept(Projected(f, g, k - 1, cp, overRelaxation), g, cp, overRelaxation)
    }

    /** Every cell the projection updates has zero net outflow. */
    predicate DivergenceFree(f: Flow, g: seq<seq<real>>)
      requires Valid() && FlowShaped(f) && Shaped(g)
    {
      forall i, j :: 1 <= i < numX - 1 && 1 <= j < numY - 1 && RelaxableIn(g, i, j) ==> DivergenceIn(f, i, j) == 0.0
    }

    /** Visiting a cell of a divergence-free field changes nothing. */
    lemma CellAtRest(f: Flow, g: seq<seq<real>>, i: int, j: int, cp: real, overRelaxation: real, maxSoFar: real)
      requires Valid() && FlowShaped(f) && Shaped(g) && 1 <= i < numX - 1 && 1 <= j < numY - 1
      requires DivergenceFree(f, g) && maxSoFar >= 0.0
      ensures CellRelaxed(f, g, i, j, cp, overRelaxation) == f
      ensures CellChange(f, g, i, j, cp, overRelaxation, maxSoFar) == maxSoFar
    {
      if RelaxableIn(g, i, j) {
        assert DivergenceIn(f, i, j) == 0.0;
        assert -DivergenceIn(f, i, j) / OpenSum(g, i, j) == 0.0;
        var c := CorrectionIn(f, g, i, j, overRelaxation);
        assert c == 0.0;
        assert g[i - 1][j] * c == 0.0 && g[i + 1][j] * c == 0.0;
        assert g[i][j - 1] * c == 0.0 && g[i][j + 1] * c == 0.0 && cp * c == 0.0;
        assert f.u[i][j := f.u[i][j] - g[i - 1][j] * c] == f.u[i];
        assert f.u[i + 1][j := f.u[i + 1][j] + g[i + 1][j] * c] == f.u[i + 1];
        assert f.v[i][j := f.v[i][j] - g[i][j - 1] * c][j + 1 := f.v[i][j + 1] + g[i][j + 1] * c] == f.v[i];
        assert f.p[i][j := f.p[i][j] + cp * c] == f.p[i];
        assert f.u[i := f.u[i]][i + 1 := f.u[i + 1]] == f.u;
        assert f.v[i := f.v[i]] == f.v && f.p[i := f.p[i]] == f.p;
        assert CellRelaxed(f, g, i, j, cp, overRelaxation) == Flow(f.u, f.v, f.p);
      }
    }

    /** Visiting any prefix of a sweep over a divergence-free field leaves
        it as it is and reports a largest change of zero. */
    lemma {:induction false} VisitedAtRest(f: Flow, g: seq<seq<real>>, i: int, j: int, cp: real, overRelaxation: real)
      requires Valid() && FlowShaped(f) && Shaped(g) && InSweep(i, j)
      requires DivergenceFree(f, g)
      ensures Visited(f, g, i, j, cp, overRelaxation) == Progress(f, 0.0)
      decreases i, j
    {
      if j > 1 {
        VisitedAtRest(f, g, i, j - 1, cp, overRelaxation);
        CellAtRest(f, g, i, j - 1, cp, overRelaxation, 0.0);
      } else if i > 1 {
        VisitedAtRest(f, g, i - 1, numY - 1, cp, overRelaxation);
      }
    }

    /** A divergence-free field is a fixed point of the projection: any
        number of sweeps leaves it alone and every sweep reports a largest
        change of zero, so `solve_incompressibility` stops after the fifth
        sweep. */
    lemma {:induction false} ProjectedAtRest(f: Flow, g: seq<seq<real>>, k: nat, cp: real, overRelaxation: real)
      requires Valid() && FlowShaped(f) && Shaped(g) && DivergenceFree(f, g)
      ensures Projected(f, g, k, cp, overRelaxation) == f
      ensures SweepChange(Projected(f, g, k, cp, overRelaxation), g, cp, overRelaxation) == 0.0
      decreases k
    {
      if k > 0 {
        ProjectedAtRest(f, g, k - 1, cp, overRelaxation);
      }
      VisitedAtRest(f, g, numX - 1, 1, cp, overRelaxation);
    }

    /** Visiting cell `(i, j)` writes at most the cell's pressure and its
        four faces; an updated cell's pressure moves by `cp` times the
        correction, and the running largest change takes in its size. */
    lemma CellFrame(f: Flow, g: seq<seq<real>>, i: int, j: int, cp: real, overRelaxation: real, maxSoFar: real)
      requires Valid() && FlowShaped(f) && Shaped(g) && 1 <= i < numX - 1 && 1 <= j < numY - 1
      ensures forall a, b :: InGrid(a, b) && !(a == i && b == j && RelaxableIn(g, i, j)) ==>
        CellRelaxed(f, g, i, j, cp, overRelaxation).p[a][b] == f.p[a][b]
      ensures forall a, b :: InGrid(a, b) && !((a == i || a == i + 1) && b == j && RelaxableIn(g, i, j)) ==>
        CellRelaxed(f, g, i, j, cp, overRelaxation).u[a][b] == f.u[a][b]
      ensures forall a, b :: InGrid(a, b) && !(a == i && (b == j || b == j + 1) && RelaxableIn(g, i, j)) ==>
        CellRelaxed(f, g, i, j, cp, overRelaxation).v[a][b] == f.v[a][b]
      ensures CellChange(f, g, i, j, cp, overRelaxation, maxSoFar) ==
        if RelaxableIn(g, i, j)
        then Max(maxSoFar, Abs(CellRelaxed(f, g, i, j, cp, overRelaxation).p[i][j] - f.p[i][j]))
        else maxSoFar
    {
    }

    /** The cells updated before the start of column `i` are those updated
        before the end of column `i - 1`. */
    lemma ColumnEnd(g: seq<seq<real>>, i: int)
      requires Valid() && Shaped(g) && 1 < i <= numX - 1
      ensures forall a, b :: UpdatedBefore(g, a, b, i, 1) == UpdatedBefore(g, a, b, i - 1, numY - 1)
    {
    }

    /** The cells updated before `(i, j)` are those updated before
        `(i, j - 1)` and, when it is updated, cell `(i, j - 1)`. */
    lemma CellEnd(g: seq<seq<real>>, i: int, j: int)
      requires Valid() && Shaped(g) && 1 <= i < numX - 1 && 1 < j <= numY - 1
      ensures forall a, b ::
        UpdatedBefore(g, a, b, i, j) == (UpdatedBefore(g, a, b, i, j - 1) || (a == i && b == j - 1 && RelaxableIn(g, i, j - 1)))
    {
    }

    /** The cells updated before the end of the sweep are all the cells the
        projection updates. */
    lemma SweepEnd(g: seq<seq<real>>)
      requires Valid() && Shaped(g)
      ensures forall a, b :: UpdatedBefore(g, a, b, numX - 1, 1) == RelaxableIn(g, a, b)
    {
    }

    /** A sweep up to `(i, j)` writes only the pressure of the cells it has
        updated, and a face only when one of its two cells was updated. */
    lemma {:induction false} VisitedFrame(f: Flow, g: seq<seq<real>>, i: int, j: int, cp: real, overRelaxation: real)
      requires Valid() && FlowShaped(f) && Shaped(g) && InSweep(i, j)
      ensures forall a, b :: InGrid(a, b) && !UpdatedBefore(g, a, b, i, j) ==>
        Visited(f, g, i, j, cp, overRelaxation).flow.p[a][b] == f.p[a][b]
      ensures forall a, b :: InGrid(a, b) && !UpdatedBefore(g, a - 1, b, i, j) && !UpdatedBefore(g, a, b, i, j) ==>
        Visited(f, g, i, j, cp, overRelaxation).flow.u[a][b] == f.u[a][b]
      ensures forall a, b :: InGrid(a, b) && !UpdatedBefore(g, a, b - 1, i, j) && !UpdatedBefore(g, a, b, i, j) ==>
        Visited(f, g, i, j, cp, overRelaxation).flow.v[a][b] == f.v[a][b]
      decreases i, j
    {
      if j > 1 {
        VisitedFrame(f, g, i, j - 1, cp, overRelaxation);
        CellFrame(Visited(f, g, i, j - 1, cp, overRelaxation).flow, g, i, j - 1, cp, overRelaxation, 0.0);
        CellEnd(g, i, j);
      } else if i > 1 {
        VisitedFrame(f, g, i - 1, numY - 1, cp, overRelaxation);
        ColumnEnd(g, i);
      }
    }

    /** Visiting cell `(i, j - 1)` keeps the running largest change
        non-negative and an upper bound of the pressure change of every
        cell updated so far. */
    lemma BoundStep(f: Flow, g: seq<seq<real>>, i: int, j: int, cp: real, overRelaxation: real)
      requires Valid() && FlowShaped(f) && Shaped(g) && 1 <= i < numX - 1 && 1 < j <= numY - 1
      requires Visited(f, g, i, j - 1, cp, overRelaxation).change >= 0.0
      requires forall a, b :: UpdatedBefore(g, a, b, i, j - 1) ==>
        Abs(Visited(f, g, i, j - 1, cp, overRelaxation).flow.p[a][b] - f.p[a][b]) <= Visited(f, g, i, j - 1, cp, overRelaxation).change
      ensures Visited(f, g, i, j, cp, overRelaxation).change >= Visited(f, g, i, j - 1, cp, overRelaxation).change
      ensures forall a, b :: UpdatedBefore(g, a, b, i, j) ==>
        Abs(Visited(f, g, i, j, cp, overRelaxation).flow.p[a][b] - f.p[a][b]) <= Visited(f, g, i, j, cp, overRelaxation).change
    {
      var q := Visited(f, g, i, j - 1, cp, overRelaxation);
      assert q.flow.p[i][j - 1] == f.p[i][j - 1] by {
        VisitedFrame(f, g, i, j - 1, cp, overRelaxation);
      }
      CellFrame(q.flow, g, i, j - 1, cp, overRelaxation, q.change);
      CellEnd(g, i, j);
    }

    /** Visiting cell `(i, j - 1)` keeps the running largest change zero or
        the pressure change of a cell updated so far. */
    lemma AttainStep(f: Flow, g: seq<seq<real>>, i: int, j: int, cp: real, overRelaxation: real)
      requires Valid() && FlowShaped(f) && Shaped(g) && 1 <= i < numX - 1 && 1 < j <= numY - 1
      requires Visited(f, g, i, j - 1, cp, overRelaxation).change == 0.0 ||
        exists a, b :: UpdatedBefore(g, a, b, i, j - 1) &&
          Abs(Visited(f, g, i, j - 1, cp, overRelaxation).flow.p[a][b] - f.p[a][b]) == Visited(f, g, i, j - 1, cp, overRelaxation).change
      ensures Visited(f, g, i, j, cp, overRelaxation).change == 0.0 ||
        exists a, b :: UpdatedBefore(g, a, b, i, j) &&
          Abs(Visited(f, g, i, j, cp, overRelaxation).flow.p[a][b] - f.p[a][b]) == Visited(f, g, i, j, cp, overRelaxation).change
    {
      var q := Visited(f, g, i, j - 1, cp, overRelaxation);
      var n := CellRelaxed(q.flow, g, i, j - 1, cp, overRelaxation);
      var after := CellChange(q.flow, g, i, j - 1, cp, overRelaxation, q.change);
      assert q.flow.p[i][j - 1] == f.p[i][j - 1] by {
        VisitedFrame(f, g, i, j - 1, cp, overRelaxation);
      }
      CellFrame(q.flow, g, i, j - 1, cp, overRelaxation, q.change);
      CellEnd(g, i, j);
      if after != q.change {
        assert UpdatedBefore(g, i, j - 1, i, j) && Abs(n.p[i][j - 1] - f.p[i][j - 1]) == after;
      } else if q.change != 0.0 {
        var a, b :| UpdatedBefore(g, a, b, i, j - 1) && Abs(q.flow.p[a][b] - f.p[a][b]) == q.change;
        assert UpdatedBefore(g, a, b, i, j) && n.p[a][b] == q.flow.p[a][b];
      }
    }

    /** The running largest change up to `(i, j)` is non-negative and bounds
        the pressure change of every cell updated so far. */
    lemma {:induction false} VisitedChangeBound(f: Flow, g: seq<seq<real>>, i: int, j: int, cp: real, overRelaxation: real)
      requires Valid() && FlowShaped(f) && Shaped(g) && InSweep(i, j)
      ensures Visited(f, g, i, j, cp, overRelaxation).change >= 0.0
      ensures forall a, b :: UpdatedBefore(g, a, b, i, j) ==>
        Abs(Visited(f, g, i, j, cp, overRelaxation).flow.p[a][b] - f.p[a][b]) <= Visited(f, g, i, j, cp, overRelaxation).change
      decreases i, j
    {
      if j > 1 {
        VisitedChangeBound(f, g, i, j - 1, cp, overRelaxation);
        BoundStep(f, g, i, j, cp, overRelaxation);
      } else if i > 1 {
        VisitedChangeBound(f, g, i - 1, numY - 1, cp, overRelaxation);
        ColumnEnd(g, i);
      }
    }

    /** The running largest change up to `(i, j)` is zero or the pressure
        change of one of the cells updated so far. */
    lemma {:induction false} VisitedChangeAttained(f: Flow, g: seq<seq<real>>, i: int, j: int, cp: real, overRelaxation: real)
      requires Valid() && FlowShaped(f) && Shaped(g) && InSweep(i, j)
      ensures Visited(f, g, i, j, cp, overRelaxation).change == 0.0 ||
        exists a, b :: UpdatedBefore(g, a, b, i, j) &&
          Abs(Visited(f, g, i, j, cp, overRelaxation).flow.p[a][b] - f.p[a][b]) == Visited(f, g, i, j, cp, overRelaxation).change
      decreases i, j
    {
      if j > 1 {
        VisitedChangeAttained(f, g, i, j - 1, cp, overRelaxation);
        AttainStep(f, g, i, j, cp, overRelaxation);
      } else if i > 1 {
        VisitedChangeAttained(f, g, i - 1, numY - 1, cp, overRelaxation);
        ColumnEnd(g, i);
      }
    }

    /** A sweep writes only the pressure of the cells it updates, and a
        face only when one of its two cells is updated. */
    lemma SweepFrame(f: Flow, g: seq<seq<real>>, cp: real, overRelaxation: real)
      requires Valid() && FlowShaped(f) && Shaped(g)
      ensures forall a, b :: InGrid(a, b) && !RelaxableIn(g, a, b) ==>
        Swept(f, g, cp, overRelaxation).p[a][b] == f.p[a][b]
      ensures forall a, b :: InGrid(a, b) && !RelaxableIn(g, a - 1, b) && !RelaxableIn(g, a, b) ==>
        Swept(f, g, cp, overRelaxation).u[a][b] == f.u[a][b]
      ensures forall a, b :: InGrid(a, b) && !RelaxableIn(g, a, b - 1) && !RelaxableIn(g, a, b) ==>
        Swept(f, g, cp, overRelaxation).v[a][b] == f.v[a][b]
    {
      VisitedFrame(f, g, numX - 1, 1, cp, overRelaxation);
      SweepEnd(g);
    }

    /** The largest change of a sweep is non-negative, bounds the pressure
        change of every cell it updates, and is zero or the pressure change
        of one of those cells. */
    lemma SweepChangeBounds(f: Flow, g: seq<seq<real>>, cp: real, overRelaxation: real)
      requires Valid() && FlowShaped(f) && Shaped(g)
      ensures SweepChange(f, g, cp, overRelaxation) >= 0.0
      ensures forall a, b :: RelaxableIn(g, a, b) ==>
        Abs(Swept(f, g, cp, overRelaxation).p[a][b] - f.p[a][b]) <= SweepChange(f, g, cp, overRelaxation)
      ensures SweepChange(f, g, cp, overRelaxation) == 0.0 ||
        exists a, b :: RelaxableIn(g, a, b) &&
          Abs(Swept(f, g, cp, overRelaxation).p[a][b] - f.p[a][b]) == SweepChange(f, g, cp, overRelaxation)
    {
      VisitedChangeBound(f, g, numX - 1, 1, cp, overRelaxation);
      VisitedChangeAttained(f, g, numX - 1, 1, cp, overRelaxation);
      SweepEnd(g);
    }

    /** Any number of sweeps leaves the pressure of skipped cells and the
        faces between two skipped cells as they were. */
    lemma {:induction false} ProjectedFrame(f: Flow, g: seq<seq<real>>, k: nat, cp: real, overRelaxation: real)
      requires Valid() && FlowShaped(f) && Shaped(g)
      ensures forall a, b :: InGrid(a, b) && !RelaxableIn(g, a, b) ==>
        Projected(f, g, k, cp, overRelaxation).p[a][b] == f.p[a][b]
      ensures forall a, b :: InGrid(a, b) && !RelaxableIn(g, a - 1, b) && !RelaxableIn(g, a, b) ==>
        Projected(f, g, k, cp, overRelaxation).u[a][b] == f.u[a][b]
      ensures forall a, b :: InGrid(a, b) && !RelaxableIn(g, a, b - 1) && !RelaxableIn(g, a, b) ==>
        Projected(f, g, k, cp, overRelaxation).v[a][b] == f.v[a][b]
      decreases k
    {
      if k > 0 {
        ProjectedFrame(f, g, k - 1, cp, overRelaxation);
        SweepFrame(Projected(f, g, k - 1, cp, overRelaxation), g, cp, overRelaxation);
      }
    }

    /** `ProjectedFrame` on the arrays: when they hold `k` sweeps of `f`,
        skipped cells keep their pressure in `f` and faces between two
        skipped cells keep their velocity in `f`. */
    lemma ProjectedHeld(f: Flow, g: seq<seq<real>>, k: nat, cp: real, overRelaxation: real)
      requires Valid() && FlowShaped(f) && OpennessIs(g)
      requires Holds(Projected(f, g, k, cp, overRelaxation))
      ensures forall a, b :: InGrid(a, b) && !Relaxable(a, b) ==> p[a, b] == f.p[a][b]
      ensures forall a, b :: InGrid(a, b) && !Relaxable(a - 1, b) && !Relaxable(a, b) ==> u[a, b] == f.u[a][b]
      ensures forall a, b :: InGrid(a, b) && !Relaxable(a, b - 1) && !Relaxable(a, b) ==> v[a, b] == f.v[a][b]
    {
      ProjectedFrame(f, g, k, cp, overRelaxation);
      OpennessAgrees(g);
    }

    /** On a value copy of the openness, `RelaxableIn` is `Relaxable`. */
    lemma OpennessAgrees(g: seq<seq<real>>)
      requires Valid() && OpennessIs(g)
      ensures forall a, b :: RelaxableIn(g, a, b) == Relaxable(a, b)
    {
      forall a, b
        ensures RelaxableIn(g, a, b) == Relaxable(a, b)
      {
        if 1 <= a < numX - 1 && 1 <= b < numY - 1 {
          assert g[a][b] == s[a, b] && OpenSum(g, a, b) == NeighbourSum(a, b);
        }
      }
    }

    /** One pass of the inner loop of the projection at cell `(i, j)`:
        when the arrays hold `f`, they afterwards hold `CellRelaxed` of it,
        and `maxOut` is the running largest pressure change. */
    method VisitCell(i: nat, j: nat, cp: real, overRelaxation: real, maxSoFar: real, ghost f: Flow, ghost g: seq<seq<real>>)
      returns (maxOut: real, ghost r: Flow)
      requires Valid() && 1 <= i < numX - 1 && 1 <= j < numY - 1
      requires Holds(f) && OpennessIs(g)
      modifies u, v, p
      ensures r == CellRelaxed(f, g, i, j, cp, overRelaxation) && Holds(r)
      ensures maxOut == CellChange(f, g, i, j, cp, overRelaxation, maxSoFar)
    {
      maxOut := maxSoFar;
      r := CellRelaxed(f, g, i, j, cp, overRelaxation);
      assert RelaxableIn(g, i, j) == Relaxable(i, j);
      if s[i, j] != 0.0 {
        var sSum := s[i - 1, j] + s[i + 1, j] + s[i, j - 1] + s[i, j + 1];
        if sSum != 0.0 {
          assert Correction(i, j, overRelaxation) == CorrectionIn(f, g, i, j, overRelaxation);
          var pChange := RelaxCell(i, j, cp, overRelaxation);
          maxOut := Max(maxOut, Abs(pChange));
          forall a, b | InGrid(a, b)
            ensures u[a, b] == r.u[a][b] && v[a, b] == r.v[a][b] && p[a, b] == r.p[a][b]
          {
          }
        }
      }
    }

    /** The part of a sweep that visits column `i`: the arrays go from
        holding `Visited` up to the column's first cell to holding it up
        to the column's end, and `maxOut` is the running largest change. */
    method SweepColumn(i: nat, cp: real, overRelaxation: real, maxIn: real, ghost f: Flow, ghost g: seq<seq<real>>, ghost r0: Flow)
      returns (maxOut: real, ghost r: Flow)
      requires Valid() && 1 <= i < numX - 1 && FlowShaped(f) && OpennessIs(g)
      requires Visited(f, g, i, 1, cp, overRelaxation) == Progress(r0, maxIn) && Holds(r0)
      modifies u, v, p
      ensures Visited(f, g, i, numY - 1, cp, overRelaxation) == Progress(r, maxOut) && Holds(r)
    {
      maxOut, r := maxIn, r0;
      var j := 1;
      while j < numY - 1
        invariant 1 <= j <= numY - 1
        invariant Visited(f, g, i, j, cp, overRelaxation) == Progress(r, maxOut) && Holds(r)
      {
        maxOut, r := VisitCell(i, j, cp, overRelaxation, maxOut, r, g);
        j := j + 1;
      }
    }

    /** One sweep over the interior: when the arrays hold `f`, they
        afterwards hold `Swept` of it, cell by cell in the loops' order,
        and the result is `SweepChange`, the largest pressure change of
        the sweep (see `SweepFrame` and `SweepChangeBounds`). */
    method Sweep(cp: real, overRelaxation: real, ghost f: Flow, ghost g: seq<seq<real>>) returns (maxChange: real, ghost r: Flow)
      requires Valid() && Holds(f) && OpennessIs(g)
      modifies u, v, p
      ensures r == Swept(f, g, cp, overRelaxation) && Holds(r)
      ensures maxChange == SweepChange(f, g, cp, overRelaxation)
    {
      maxChange, r := 0.0, f;
      var i := 1;
      while i < numX - 1
        invariant 1 <= i <= numX - 1
        invariant Visited(f, g, i, 1, cp, overRelaxation) == Progress(r, maxChange) && Holds(r)
      {
        maxChange, r := SweepColumn(i, cp, overRelaxation, maxChange, f, g, r);
        i := i + 1;
      }
    }

    /** The pressure scale `cp = ρh/dt` of the projection. */
    function PressureScale(dt: real): real
      requires dt != 0.0
    {
      density * h / dt
    }

    /** `solve_incompressibility`: the fields become `sweeps` sweeps of the
        old ones. There are at most `numIters` sweeps; every sweep after
        the fourth that was not the last changed some pressure by `1e-6`
        or more, and the loop stops early only after the fifth sweep or
        later, once a sweep's largest change is below `1e-6`. The openness
        and the dye are never written, skipped cells keep their pressure,
        and faces of skipped cells only keep their velocity. */
    method SolveIncompressibility(numIters: nat, dt: real, overRelaxation: real)
      returns (ghost sweeps: nat, ghost lastMaxChange: real)
      requires Valid() && dt != 0.0
      modifies u, v, p
      ensures Holds(Projected(old(Current()), Snapshot(s), sweeps, PressureScale(dt), overRelaxation))
      ensures sweeps <= numIters
      ensures sweeps >= (if numIters < 5 then numIters else 5)
      ensures sweeps > 0 ==>
        lastMaxChange == SweepChange(Projected(old(Current()), Snapshot(s), sweeps - 1, PressureScale(dt), overRelaxation), Snapshot(s), PressureScale(dt), overRelaxation)
      ensures sweeps < numIters ==> 5 <= sweeps && lastMaxChange < ConvergenceThreshold
      ensures forall k :: 4 <= k < sweeps - 1 ==>
        SweepChange(Projected(old(Current()), Snapshot(s), k, PressureScale(dt), overRelaxation), Snapshot(s), PressureScale(dt), overRelaxation) >= ConvergenceThreshold
      ensures forall a, b :: InGrid(a, b) && !Relaxable(a, b) ==> p[a, b] == old(p[a, b])
      ensures forall a, b :: InGrid(a, b) && !Relaxable(a - 1, b) && !Relaxable(a, b) ==> u[a, b] == old(u[a, b])
      ensures forall a, b :: InGrid(a, b) && !Relaxable(a, b - 1) && !Relaxable(a, b) ==> v[a, b] == old(v[a, b])
    {
      var cp := density * h / dt;
      ghost var f0, g := Current(), Snapshot(s);
      ghost var now := f0;
      sweeps, lastMaxChange := 0, 0.0;
      var iter := 0;
      while iter < numIters
        invariant iter <= numIters && sweeps == iter
        invariant now == Projected(f0, g, iter, cp, overRelaxation) && Holds(now)
        invariant iter > 0 ==> lastMaxChange == SweepChange(Projected(f0, g, iter - 1, cp, overRelaxation), g, cp, overRelaxation)
        invariant forall k :: 4 <= k < iter ==> SweepChange(Projected(f0, g, k, cp, overRelaxation), g, cp, overRelaxation) >= ConvergenceThreshold
      {
        var maxChange;
        maxChange, now := Sweep(cp, overRelaxation, now, g);
        sweeps, lastMaxChange := iter + 1, maxChange;
        if iter > 3 && maxChange < ConvergenceThreshold {
          break;
        }
        iter := iter + 1;
      }
      assert Snapshot(s) == g && PressureScale(dt) == cp;
      ProjectedHeld(f0, g, sweeps, cp, overRelaxation);
    }

    // ---------------------------------------------------------------
    // Boundary passes

    /** `u` after the top/bottom pass of `extrapolate`: row 0 copies row 1
        and row `numY-1` copies row `numY-2`. */
    function RowExtrapolatedU(a: nat, b: nat): real
      requires Valid() && a < numX && b < numY
      reads u
    {
      if b == 0 then u[a, 1] else if b == numY - 1 then u[a, numY - 2] else u[a, b]
    }

    /** `v` after the top/bottom pass of `extrapolate`: no penetration. */
    function RowExtrapolatedV(a: nat, b: nat): real
      requires Valid() && a < numX && b < numY
      reads v
    {
      if b == 0 || b == numY - 1 then 0.0 else v[a, b]
    }

    /** `u` after `extrapolate`: the left column keeps a nonzero inflow and
        otherwise copies column 1; the right column copies column `numX-2`. */
    function ExtrapolatedU(a: nat, b: nat): real
      requires Valid() && a < numX && b < numY
      reads u
    {
      if a == 0 then
        (if RowExtrapolatedU(0, b) == 0.0 then RowExtrapolatedU(1, b) else RowExtrapolatedU(0, b))
      else if a == numX - 1 then RowExtrapolatedU(numX - 2, b)
      else RowExtrapolatedU(a, b)
    }

    /** `v` after `extrapolate`: both side columns copy their inner neighbour. */
    function ExtrapolatedV(a: nat, b: nat): real
      requires Valid() && a < numX && b < numY
      reads v
    {
      if a == 0 then RowExtrapolatedV(1, b)
      else if a == numX - 1 then RowExtrapolatedV(numX - 2, b)
      else RowExtrapolatedV(a, b)
    }

    /** `extrapolate`: the new velocities are `ExtrapolatedU`/`V` of the old
        ones, so no flow crosses the top and bottom walls, the outlet has
        zero gradient, a nonzero inflow is kept, and the interior is
        untouched. */
    method Extrapolate()
      requires Valid()
      modifies u, v
      ensures forall a, b :: InGrid(a, b) ==> u[a, b] == old(ExtrapolatedU(a, b)) && v[a, b] == old(ExtrapolatedV(a, b))
      ensures forall a :: 0 <= a < numX ==> v[a, 0] == 0.0 && v[a, numY - 1] == 0.0
      ensures forall b :: 0 <= b < numY ==> OutletCopies(b)
      ensures forall b :: 1 <= b < numY - 1 ==>
        u[0, b] == (if old(u[0, b]) != 0.0 then old(u[0, b]) else old(u[1, b]))
      ensures forall a, b :: 1 <= a < numX - 1 && 1 <= b < numY - 1 ==> u[a, b] == old(u[a, b]) && v[a, b] == old(v[a, b])
    {
      var i := 0;
      while i < numX
        invariant 0 <= i <= numX
        invariant forall a, b :: InGrid(a, b) ==>
          u[a, b] == (if a < i then old(RowExtrapolatedU(a, b)) else old(u[a, b])) &&
          v[a, b] == (if a < i then old(RowExtrapolatedV(a, b)) else old(v[a, b]))
      {
        u[i, 0] := u[i, 1];
        v[i, 0] := 0.0;
        u[i, numY - 1] := u[i, numY - 2];
        v[i, numY - 1] := 0.0;
        i := i + 1;
      }
      var j := 0;
      while j < numY
        invariant 0 <= j <= numY
        invariant forall a, b :: InGrid(a, b) ==>
          u[a, b] == (if b < j then old(ExtrapolatedU(a, b)) else old(RowExtrapolatedU(a, b))) &&
          v[a, b] == (if b < j then old(ExtrapolatedV(a, b)) else old(RowExtrapolatedV(a, b)))
      {
        if u[0, j] == 0.0 {
          u[0, j] := u[1, j];
        }
        v[0, j] := v[1, j];
        u[numX - 1, j] := u[numX - 2, j];
        v[numX - 1, j] := v[numX - 2, j];
        j := j + 1;
      }
    }

    /** `u` after the inflow loop of `enforce_boundary_conditions`. */
    function InflowU(a: nat, b: nat, inflow: real): real
      requires Valid() && a < numX && b < numY
      reads u
    {
      if (a == 0 || a == 1) && 1 <= b < numY - 1 then inflow else u[a, b]
    }

    /** `u` after the inflow and the wall loops. */
    function WallU(a: nat, b: nat, inflow: real): real
      requires Valid() && a < numX && b < numY
      reads u
    {
      if b == 0 || b == numY - 1 then 0.0 else InflowU(a, b, inflow)
    }

    /** `v` after the wall loop. */
    function WallV(a: nat, b: nat): real
      requires Valid() && a < numX && b < numY
      reads v
    {
      if b == 0 || b == numY - 1 then 0.0 else v[a, b]
    }

    /** `u` after `enforce_boundary_conditions`. */
    function EnforcedU(a: nat, b: nat, inflow: real): real
      requires Valid() && a < numX && b < numY
      reads u
    {
      if a == numX - 1 then WallU(numX - 2, b, inflow) else WallU(a, b, inflow)
    }

    /** `v` after `enforce_boundary_conditions`. */
    function EnforcedV(a: nat, b: nat): real
      requires Valid() && a < numX && b < numY
      reads v
    {
      if a == numX - 1 then WallV(numX - 2, b) else WallV(a, b)
    }

    /** Row `b` of the outlet column repeats the column before it (zero gradient). */
    predicate OutletCopies(b: nat)
      requires Valid() && b < numY
      reads u, v
    {
      u[numX - 1, b] == u[numX - 2, b] && v[numX - 1, b] == v[numX - 2, b]
    }

    /** The conditions `enforce_boundary_conditions` leaves behind: fixed
        inflow in the two left columns, no-slip top and bottom walls, and a
        zero-gradient outlet. */
    predicate BoundaryConditionsHold(inflow: real)
      requires Valid()
      reads u, v
    {
      (forall b :: 1 <= b < numY - 1 ==> u[0, b] == inflow && u[1, b] == inflow) &&
      (forall a :: 0 <= a < numX ==> u[a, 0] == 0.0 && v[a, 0] == 0.0 && u[a, numY - 1] == 0.0 && v[a, numY - 1] == 0.0) &&
      (forall b :: 0 <= b < numY ==> OutletCopies(b))
    }

    /** `enforce_boundary_conditions`: the new velocities are `EnforcedU`/`V`
        of the old ones, and the boundary conditions hold afterwards. */
    method EnforceBoundaryConditions(inflow: real)
      requires Valid()
      modifies u, v
      ensures forall a, b :: InGrid(a, b) ==> u[a, b] == old(EnforcedU(a, b, inflow)) && v[a, b] == old(EnforcedV(a, b))
      ensures BoundaryConditionsHold(inflow)
    {
      var j := 1;
      while j < numY - 1
        invariant 1 <= j <= numY - 1
        invariant forall a, b :: InGrid(a, b) ==>
          u[a, b] == (if (a == 0 || a == 1) && 1 <= b < j then inflow else old(u[a, b]))
        invariant forall a, b :: InGrid(a, b) ==> v[a, b] == old(v[a, b])
      {
        u[0, j] := inflow;
        u[1, j] := inflow;
        j := j + 1;
      }
      var i := 0;
      while i < numX
        invariant 0 <= i <= numX
        invariant forall a, b :: InGrid(a, b) ==>
          u[a, b] == (if a < i && (b == 0 || b == numY - 1) then 0.0 else old(InflowU(a, b, inflow))) &&
          v[a, b] == (if a < i then old(WallV(a, b)) else old(v[a, b]))
      {
        u[i, 0] := 0.0;
        v[i, 0] := 0.0;
        u[i, numY - 1] := 0.0;
        v[i, numY - 1] := 0.0;
        i := i + 1;
      }
      j := 0;
      while j < numY
        invariant 0 <= j <= numY
        invariant forall a, b :: InGrid(a, b) ==>
          u[a, b] == (if b < j then old(EnforcedU(a, b, inflow)) else old(WallU(a, b, inflow))) &&
          v[a, b] == (if b < j then old(EnforcedV(a, b)) else old(WallV(a, b)))
      {
        u[numX - 1, j] := u[numX - 2, j];
        v[numX - 1, j] := v[numX - 2, j];
        j := j + 1;
      }
    }

    // ---------------------------------------------------------------
    // Sampling

    /** The array a field kind is read from. */
    function FieldArray(field: FieldType): array2<real>
    {
      match field
      case U => u
      case V => v
      case Smoke => m
    }

    /** How far the field's nodes sit from the cell corners, horizontally
        and vertically: `u` lives on vertical faces, `v` on horizontal
        faces and the dye at cell centres. */
    function XOffset(field: FieldType): real
    {
      if field == U then 0.0 else 0.5 * h
    }

    function YOffset(field: FieldType): real
    {
      if field == V then 0.0 else 0.5 * h
    }

    function XAxis(x: real, field: FieldType): Axis
      requires Valid()
    {
      FieldAxis(x, XOffset(field), h, numX)
    }

    function YAxis(y: real, field: FieldType): Axis
      requires Valid()
    {
      FieldAxis(y, YOffset(field), h, numY)
    }

    /** `sample_field`: bilinear interpolation of a field at `(x, y)`
        between the four stencil nodes of `XAxis` and `YAxis`. The nodes lie
        on the grid for every input (the `FieldAxis` bounds), and the sample
        is a convex combination of their values, so it lies between the
        smallest and the largest. */
    function SampleField(x: real, y: real, field: FieldType): (r: real)
      requires Valid()
      reads u, v, m
      ensures var ax, ay, f := XAxis(x, field), YAxis(y, field), FieldArray(field);
        Min4(f[ax.lo, ay.lo], f[ax.hi, ay.lo], f[ax.hi, ay.hi], f[ax.lo, ay.hi]) <= r <=
        Max4(f[ax.lo, ay.lo], f[ax.hi, ay.lo], f[ax.hi, ay.hi], f[ax.lo, ay.hi])
    {
      var ax, ay, f := XAxis(x, field), YAxis(y, field), FieldArray(field);
      BilinearIsConvex(ax.t, ay.t, f[ax.lo, ay.lo], f[ax.hi, ay.lo], f[ax.hi, ay.hi], f[ax.lo, ay.hi]);
      Bilinear(ax.t, ay.t, f[ax.lo, ay.lo], f[ax.hi, ay.lo], f[ax.hi, ay.hi], f[ax.lo, ay.hi])
    }

    lemma XAxisAtNode(k: nat, field: FieldType)
      requires Valid()
      requires 1 <= k && (if field == U then k <= numX - 1 else k <= numX - 2)
      ensures XAxis(k as real * h + XOffset(field), field).lo == k
      ensures XAxis(k as real * h + XOffset(field), field).t == 0.0
    {
      FieldAxisAtNode(k, XOffset(field), h, numX);
    }

    lemma YAxisAtNode(l: nat, field: FieldType)
      requires Valid()
      requires 1 <= l && (if field == V then l <= numY - 1 else l <= numY - 2)
      ensures YAxis(l as real * h + YOffset(field), field).lo == l
      ensures YAxis(l as real * h + YOffset(field), field).t == 0.0
    {
      FieldAxisAtNode(l, YOffset(field), h, numY);
    }

    /** Sampling a field exactly at one of its own nodes that the clamp
        into `[h, (n-1)h]` leaves in place returns the stored value. A node
        at offset 0 is in place from index 1 to `n-1`, one at offset `h/2`
        from 1 to `n-2`. */
    lemma {:induction false} SampleFieldAtNode(k: nat, l: nat, field: FieldType)
      requires Valid()
      requires 1 <= k && (if field == U then k <= numX - 1 else k <= numX - 2)
      requires 1 <= l && (if field == V then l <= numY - 1 else l <= numY - 2)
      ensures SampleField(k as real * h + XOffset(field), l as real * h + YOffset(field), field) == FieldArray(field)[k, l]
    {
      var x, y := k as real * h + XOffset(field), l as real * h + YOffset(field);
      XAxisAtNode(k, field);
      YAxisAtNode(l, field);
      var ax, ay, f := XAxis(x, field), YAxis(y, field), FieldArray(field);
      BilinearAtCorner(f[k, l], f[ax.hi, l], f[ax.hi, ay.hi], f[k, ay.hi]);
    }

    /** Interpolation creates no new extremes: if every value of the field
        lies in `[lo, hi]`, so does every sample. */
    lemma SampleFieldWithin(x: real, y: real, field: FieldType, lo: real, hi: real)
      requires Valid() && Within(FieldArray(field), lo, hi)
      ensures lo <= SampleField(x, y, field) <= hi
    {
      var ax, ay, f := XAxis(x, field), YAxis(y, field), FieldArray(field);
      assert lo <= Min4(f[ax.lo, ay.lo], f[ax.hi, ay.lo], f[ax.hi, ay.hi], f[ax.lo, ay.hi]);
      assert Max4(f[ax.lo, ay.lo], f[ax.hi, ay.lo], f[ax.hi, ay.hi], f[ax.lo, ay.hi]) <= hi;
    }

    /** `avg_u`: the horizontal velocity at horizontal face `(i, j)`. On
        row 0 it is the face itself; elsewhere it is the mean of the four
        vertical faces around the horizontal face, so it lies between the
        smallest and the largest of them. */
    function AvgU(i: nat, j: nat): (r: real)
      requires Valid() && i < numX && j < numY && (j == 0 || i + 1 < numX)
      reads u
      ensures j == 0 ==> r == u[i, 0]
      ensures j > 0 ==> Min4(u[i, j - 1], u[i, j], u[i + 1, j - 1], u[i + 1, j]) <= r <= Max4(u[i, j - 1], u[i, j], u[i + 1, j - 1], u[i + 1, j])
    {
      if j == 0 then u[i, j]
      else (u[i, j - 1] + u[i, j] + u[i + 1, j - 1] + u[i + 1, j]) * 0.25
    }

    /** `avg_v`: the vertical velocity at vertical face `(i, j)`. On
        column 0 it is the face itself; elsewhere it is the mean of the four
        horizontal faces around the vertical face, so it lies between the
        smallest and the largest of them. */
    function AvgV(i: nat, j: nat): (r: real)
      requires Valid() && i < numX && j < numY && (i == 0 || j + 1 < numY)
      reads v
      ensures i == 0 ==> r == v[0, j]
      ensures i > 0 ==> Min4(v[i - 1, j], v[i, j], v[i - 1, j + 1], v[i, j + 1]) <= r <= Max4(v[i - 1, j], v[i, j], v[i - 1, j + 1], v[i, j + 1])
    {
      if i == 0 then v[i, j]
      else (v[i - 1, j] + v[i, j] + v[i - 1, j + 1] + v[i, j + 1]) * 0.25
    }

    // ---------------------------------------------------------------
    // Advection

    /** Vertical face `(a, b)` is advected: it is in the swept range, not on
        the top or bottom row, and both cells it separates are open. */
    predicate AdvectsU(a: int, b: int)
      requires Valid()
      reads s
    {
      1 <= a < numX && 1 <= b < numY - 1 && s[a, b] != 0.0 && s[a - 1, b] != 0.0
    }

    /** Horizontal face `(a, b)` is advected: it is in the swept range, not
        on the last column, and both cells it separates are open. */
    predicate AdvectsV(a: int, b: int)
      requires Valid()
      reads s
    {
      1 <= a < numX - 1 && 1 <= b < numY && s[a, b] != 0.0 && s[a, b - 1] != 0.0
    }

    /** The dye of cell `(a, b)` is advected: the cell is interior and open. */
    predicate AdvectsSmoke(a: int, b: int)
      requires Valid()
      reads s
    {
      1 <= a < numX - 1 && 1 <= b < numY - 1 && s[a, b] != 0.0
    }

    /** Where the fluid at vertical face `(a, b)` was `dt` earlier, tracing
        back with the face's own `u` and the averaged `v`. */
    function DepartureU(a: nat, b: nat, dt: real): (real, real)
      requires Valid() && 1 <= a < numX && 1 <= b < numY - 1
      reads u, v
    {
      (a as real * h - dt * u[a, b], b as real * h + 0.5 * h - dt * AvgV(a, b))
    }

    /** Where the fluid at horizontal face `(a, b)` was, tracing back with
        the averaged `u` and the face's own `v`. */
    function DepartureV(a: nat, b: nat, dt: real): (real, real)
      requires Valid() && 1 <= a < numX - 1 && 1 <= b < numY
      reads u, v
    {
      (a as real * h + 0.5 * h - dt * AvgU(a, b), b as real * h - dt * v[a, b])
    }

    /** Where the fluid at the centre of cell `(a, b)` was, tracing back
        with the mean of its two `u` faces and of its two `v` faces. */
    function DepartureSmoke(a: nat, b: nat, dt: real): (real, real)
      requires Valid() && 1 <= a < numX - 1 && 1 <= b < numY - 1
      reads u, v
    {
      (a as real * h + 0.5 * h - dt * ((u[a, b] + u[a + 1, b]) * 0.5),
       b as real * h + 0.5 * h - dt * ((v[a, b] + v[a, b + 1]) * 0.5))
    }

    /** The new `u` of face `(a, b)`: `u` sampled at its departure point. */
    function AdvectedU(a: nat, b: nat, dt: real): real
      requires Valid() && 1 <= a < numX && 1 <= b < numY - 1
      reads u, v, m
    {
      var d := DepartureU(a, b, dt);
      SampleField(d.0, d.1, U)
    }

    /** The new `v` of face `(a, b)`: `v` sampled at its departure point. */
    function AdvectedV(a: nat, b: nat, dt: real): real
      requires Valid() && 1 <= a < numX - 1 && 1 <= b < numY
      reads u, v, m
    {
      var d := DepartureV(a, b, dt);
      SampleField(d.0, d.1, V)
    }

    /** The new dye of cell `(a, b)`: the dye sampled at its departure point. */
    function AdvectedSmoke(a: nat, b: nat, dt: real): real
      requires Valid() && 1 <= a < numX - 1 && 1 <= b < numY - 1
      reads u, v, m
    {
      var d := DepartureSmoke(a, b, dt);
      SampleField(d.0, d.1, Smoke)
    }

    /** A zero time step traces every face back to itself, so advection
        with `dt == 0` reproduces the velocity it reads. */
    lemma {:induction false} AdvectedUZeroStep(a: nat, b: nat)
      requires Valid() && 1 <= a < numX && 1 <= b < numY - 1
      ensures AdvectedU(a, b, 0.0) == u[a, b]
    {
      assert DepartureU(a, b, 0.0) == (a as real * h + XOffset(U), b as real * h + YOffset(U));
      SampleFieldAtNode(a, b, U);
    }

    lemma {:induction false} AdvectedVZeroStep(a: nat, b: nat)
      requires Valid() && 1 <= a < numX - 1 && 1 <= b < numY
      ensures AdvectedV(a, b, 0.0) == v[a, b]
    {
      assert DepartureV(a, b, 0.0) == (a as real * h + XOffset(V), b as real * h + YOffset(V));
      SampleFieldAtNode(a, b, V);
    }

    lemma {:induction false} AdvectedSmokeZeroStep(a: nat, b: nat)
      requires Valid() && 1 <= a < numX - 1 && 1 <= b < numY - 1
      ensures AdvectedSmoke(a, b, 0.0) == m[a, b]
    {
      assert DepartureSmoke(a, b, 0.0) == (a as real * h + XOffset(Smoke), b as real * h + YOffset(Smoke));
      SampleFieldAtNode(a, b, Smoke);
    }

    /** Advection creates no new extremes of the dye: when every dye value
        lies in `[lo, hi]`, so does every advected one. */
    lemma {:induction false} AdvectedSmokeWithin(a: nat, b: nat, dt: real, lo: real, hi: real)
      requires Valid() && 1 <= a < numX - 1 && 1 <= b < numY - 1 && Within(m, lo, hi)
      ensures lo <= AdvectedSmoke(a, b, dt) <= hi
    {
      var d := DepartureSmoke(a, b, dt);
      assert FieldArray(Smoke) == m;
      SampleFieldWithin(d.0, d.1, Smoke, lo, hi);
    }

    /** The same for the horizontal velocity. */
    lemma {:induction false} AdvectedUWithin(a: nat, b: nat, dt: real, lo: real, hi: real)
      requires Valid() && 1 <= a < numX && 1 <= b < numY - 1 && Within(u, lo, hi)
      ensures lo <= AdvectedU(a, b, dt) <= hi
    {
      var d := DepartureU(a, b, dt);
      assert FieldArray(U) == u;
      SampleFieldWithin(d.0, d.1, U, lo, hi);
    }

    /** Advection creates no new extremes in `v` either: the traced-back
        value lies within any bounds of the old `v`. */
    lemma {:induction false} AdvectedVWithin(a: nat, b: nat, dt: real, lo: real, hi: real)
      requires Valid() && 1 <= a < numX - 1 && 1 <= b < numY && Within(v, lo, hi)
      ensures lo <= AdvectedV(a, b, dt) <= hi
    {
      var d := DepartureV(a, b, dt);
      assert FieldArray(V) == v;
      SampleFieldWithin(d.0, d.1, V, lo, hi);
    }

    /** One cell of the `advect_velocity` sweep: writes face `(i, j)` of
        each scratch buffer whose face is advected, and nothing else. */
    method AdvectFacesAt(i: nat, j: nat, dt: real)
      requires Valid() && 1 <= i < numX && 1 <= j < numY
      modifies newU, newV
      ensures forall a, b :: InGrid(a, b) ==>
        newU[a, b] == (if a == i && b == j && AdvectsU(i, j) then AdvectedU(i, j, dt) else old(newU[a, b]))
      ensures forall a, b :: InGrid(a, b) ==>
        newV[a, b] == (if a == i && b == j && AdvectsV(i, j) then AdvectedV(i, j, dt) else old(newV[a, b]))
    {
      AdvectFaceU(i, j, dt);
      AdvectFaceV(i, j, dt);
    }

    /** The `u` half of one cell of the sweep. */
    method AdvectFaceU(i: nat, j: nat, dt: real)
      requires Valid() && 1 <= i < numX && 1 <= j < numY
      modifies newU
      ensures forall a, b :: InGrid(a, b) ==>
        newU[a, b] == (if a == i && b == j && AdvectsU(i, j) then AdvectedU(i, j, dt) else old(newU[a, b]))
    {
      if s[i, j] != 0.0 && s[i - 1, j] != 0.0 && j < numY - 1 {
        newU[i, j] := AdvectedU(i, j, dt);
      }
    }

    /** The `v` half of one cell of the sweep. */
    method AdvectFaceV(i: nat, j: nat, dt: real)
      requires Valid() && 1 <= i < numX && 1 <= j < numY
      modifies newV
      ensures forall a, b :: InGrid(a, b) ==>
        newV[a, b] == (if a == i && b == j && AdvectsV(i, j) then AdvectedV(i, j, dt) else old(newV[a, b]))
    {
      if s[i, j] != 0.0 && j > 0 && s[i, j - 1] != 0.0 && i < numX - 1 {
        newV[i, j] := AdvectedV(i, j, dt);
      }
    }

    /** The sweep of `advect_velocity` into the scratch buffers: every
        advected face gets its traced-back value, computed from `u`, `v`
        and `m`, which the sweep does not write. */
    method AdvectVelocityInto(dt: real)
      requires Valid()
      modifies newU, newV
      ensures forall a, b :: InGrid(a, b) ==>
        newU[a, b] == (if AdvectsU(a, b) then AdvectedU(a, b, dt) else old(newU[a, b]))
      ensures forall a, b :: InGrid(a, b) ==>
        newV[a, b] == (if AdvectsV(a, b) then AdvectedV(a, b, dt) else old(newV[a, b]))
    {
      var i := 1;
      while i < numX
        invariant 1 <= i <= numX
        invariant forall a, b :: InGrid(a, b) ==>
          newU[a, b] == (if UAdvectedBy(a, b, i, 1) then AdvectedU(a, b, dt) else old(newU[a, b]))
        invariant forall a, b :: InGrid(a, b) ==>
          newV[a, b] == (if VAdvectedBy(a, b, i, 1) then AdvectedV(a, b, dt) else old(newV[a, b]))
      {
        var j := 1;
        while j < numY
          invariant 1 <= j <= numY
          invariant forall a, b :: InGrid(a, b) ==>
            newU[a, b] == (if UAdvectedBy(a, b, i, j) then AdvectedU(a, b, dt) else old(newU[a, b]))
          invariant forall a, b :: InGrid(a, b) ==>
            newV[a, b] == (if VAdvectedBy(a, b, i, j) then AdvectedV(a, b, dt) else old(newV[a, b]))
        {
          AdvectFacesAt(i, j, dt);
          forall a, b | InGrid(a, b)
            ensures UAdvectedBy(a, b, i, j + 1) == (UAdvectedBy(a, b, i, j) || (a == i && b == j && AdvectsU(i, j)))
            ensures VAdvectedBy(a, b, i, j + 1) == (VAdvectedBy(a, b, i, j) || (a == i && b == j && AdvectsV(i, j)))
          {
          }
          j := j + 1;
        }
        forall a, b | InGrid(a, b)
          ensures UAdvectedBy(a, b, i + 1, 1) == UAdvectedBy(a, b, i, j)
          ensures VAdvectedBy(a, b, i + 1, 1) == VAdvectedBy(a, b, i, j)
        {
        }
        i := i + 1;
      }
      forall a, b | InGrid(a, b)
        ensures UAdvectedBy(a, b, i, 1) == AdvectsU(a, b)
        ensures VAdvectedBy(a, b, i, 1) == AdvectsV(a, b)
      {
      }
    }

    /** Vertical face `(a, b)` is advected and the sweep standing at
        `(i, j)` has already visited it. */
    predicate UAdvectedBy(a: int, b: int, i: int, j: int)
      requires Valid()
      reads s
    {
      Before(a, b, i, j) && AdvectsU(a, b)
    }

    /** Horizontal face `(a, b)` is advected and already visited. */
    predicate VAdvectedBy(a: int, b: int, i: int, j: int)
      requires Valid()
      reads s
    {
      Before(a, b, i, j) && AdvectsV(a, b)
    }

    /** `advect_velocity`: every advected face takes its traced-back value
        computed from the velocities before the call, every other face
        keeps its value, and the scratch buffers end equal to the fields. */
    method AdvectVelocity(dt: real)
      requires Valid()
      modifies u, v, newU, newV
      ensures forall a, b :: InGrid(a, b) ==>
        u[a, b] == old(if AdvectsU(a, b) then AdvectedU(a, b, dt) else u[a, b]) &&
        v[a, b] == old(if AdvectsV(a, b) then AdvectedV(a, b, dt) else v[a, b])
      ensures forall a, b :: InGrid(a, b) ==> newU[a, b] == u[a, b] && newV[a, b] == v[a, b]
    {
      CopyInto(newU, u);
      CopyInto(newV, v);
      AdvectVelocityInto(dt);
      assert unchanged(u, v, m, s);
      forall a, b | InGrid(a, b)
        ensures newU[a, b] == old(if AdvectsU(a, b) then AdvectedU(a, b, dt) else u[a, b])
        ensures newV[a, b] == old(if AdvectsV(a, b) then AdvectedV(a, b, dt) else v[a, b])
      {
        if AdvectsU(a, b) {
          assert AdvectedU(a, b, dt) == old(AdvectedU(a, b, dt));
        }
        if AdvectsV(a, b) {
          assert AdvectedV(a, b, dt) == old(AdvectedV(a, b, dt));
        }
      }
      CopyInto(u, newU);
      CopyInto(v, newV);
    }

    /** The sweep of `advect_smoke` into the scratch buffer. */
    method AdvectSmokeInto(dt: real)
      requires Valid()
      modifies newM
      ensures forall a, b :: InGrid(a, b) ==>
        newM[a, b] == (if AdvectsSmoke(a, b) then old(AdvectedSmoke(a, b, dt)) else old(newM[a, b]))
    {
      var i := 1;
      while i < numX - 1
        invariant 1 <= i <= numX - 1
        invariant forall a, b :: InGrid(a, b) ==>
          newM[a, b] == (if a < i && AdvectsSmoke(a, b) then old(AdvectedSmoke(a, b, dt)) else old(newM[a, b]))
      {
        var j := 1;
        while j < numY - 1
          invariant 1 <= j <= numY - 1
          invariant forall a, b :: InGrid(a, b) ==>
            newM[a, b] == (if Before(a, b, i, j) && AdvectsSmoke(a, b) then old(AdvectedSmoke(a, b, dt)) else old(newM[a, b]))
        {
          if s[i, j] != 0.0 {
            newM[i, j] := AdvectedSmoke(i, j, dt);
          }
          j := j + 1;
        }
        i := i + 1;
      }
    }

    /** `advect_smoke`: every open interior cell takes its traced-back dye
        computed from the fields before the call, every other cell keeps
        its dye. */
    method AdvectSmoke(dt: real)
      requires Valid()
      modifies m, newM
      ensures forall a, b :: InGrid(a, b) ==>
        m[a, b] == old(if AdvectsSmoke(a, b) then AdvectedSmoke(a, b, dt) else m[a, b])
      ensures forall a, b :: InGrid(a, b) ==> newM[a, b] == m[a, b]
      ensures forall lo, hi :: old(Within(m, lo, hi)) ==> Within(m, lo, hi)
    {
      forall a, b, lo, hi | AdvectsSmoke(a, b) && Within(m, lo, hi)
        ensures lo <= AdvectedSmoke(a, b, dt) <= hi
      {
        AdvectedSmokeWithin(a, b, dt, lo, hi);
      }
      CopyInto(newM, m);
      AdvectSmokeInto(dt);
      CopyInto(m, newM);
    }

    // ---------------------------------------------------------------
    // One step

    /** `simulate_with_boundaries`: gravity, projection from a cleared
        pressure, extrapolation, advection of velocity and dye, then the
        boundary conditions. Afterwards the boundary conditions hold, the
        openness is unchanged, every cell the projection skips has pressure
        zero, the dye changes only in open interior cells, and dye bounds
        that held before still hold. */
    method SimulateWithBoundaries(dt: real, gravity: real, numIters: nat, overRelaxation: real, inflow: real)
      requires Valid() && dt != 0.0
      modifies u, v, p, m, newU, newV, newM
      ensures BoundaryConditionsHold(inflow)
      ensures forall a, b :: InGrid(a, b) && !Relaxable(a, b) ==> p[a, b] == 0.0
      ensures forall a, b :: InGrid(a, b) && !AdvectsSmoke(a, b) ==> m[a, b] == old(m[a, b])
      ensures forall lo, hi :: old(Within(m, lo, hi)) ==> Within(m, lo, hi)
    {
      Integrate(dt, gravity);
      Fill(p, 0.0);
      ghost var sweeps, lastMaxChange := SolveIncompressibility(numIters, dt, overRelaxation);
      Extrapolate();
      AdvectVelocity(dt);
      AdvectSmoke(dt);
      EnforceBoundaryConditions(inflow);
    }

    // ---------------------------------------------------------------
    // Boundary-layer control

    /** Face `(a, b)` lies in the band of three rows below the top wall
        that the heuristic relaxes (only when `num_y > 4`). */
    predicate InTopBand(a: int, b: int)
    {
      numY > 4 && 2 <= a < numX - 2 && numY - 4 <= b <= numY - 2
    }

    /** Face `(a, b)` lies in the band of three rows above the bottom wall. */
    predicate InBottomBand(a: int, b: int)
    {
      numY > 4 && 2 <= a < numX - 2 && 1 <= b <= 3
    }

    /** Face `(a, b)` lies in the core: past the inlet, short of the last
        ten columns, and in the middle half of the rows. */
    predicate InCore(a: int, b: int)
    {
      2 <= a < numX - 10 && numY / 4 <= b < 3 * numY / 4
    }

    /** `u` of a face after the three passes, from its value before. */
    function LayerControlledU(x: real, a: int, b: int, inflow: real): real
    {
      var x1 := if InTopBand(a, b) then BandRelax(x, inflow, numY - 1 - b) else x;
      var x2 := if InBottomBand(a, b) then BandRelax(x1, inflow, b) else x1;
      if InCore(a, b) then CoreRelax(x2, inflow) else x2
    }

    /** `v` of a face after the three passes: the suction of the band
        written last, or the value before. */
    function LayerControlledV(x: real, a: int, b: int): real
    {
      if InBottomBand(a, b) then BottomSuction(b)
      else if InTopBand(a, b) then TopSuction(numY - 1 - b)
      else x
    }

    method TopBandPass(inflow: real)
      requires Valid()
      modifies u, v
      ensures forall a, b :: InGrid(a, b) ==>
        u[a, b] == (if InTopBand(a, b) then BandRelax(old(u[a, b]), inflow, numY - 1 - b) else old(u[a, b]))
      ensures forall a, b :: InGrid(a, b) ==>
        v[a, b] == (if InTopBand(a, b) then TopSuction(numY - 1 - b) else old(v[a, b]))
    {
      if numY > 4 {
        var i := 2;
        while i < numX - 2
          invariant 2 <= i && (i <= numX - 2 || i == 2)
          invariant forall a, b :: InGrid(a, b) ==>
            u[a, b] == (if a < i && InTopBand(a, b) then BandRelax(old(u[a, b]), inflow, numY - 1 - b) else old(u[a, b]))
          invariant forall a, b :: InGrid(a, b) ==>
            v[a, b] == (if a < i && InTopBand(a, b) then TopSuction(numY - 1 - b) else old(v[a, b]))
        {
          var offset := 1;
          while offset <= WallDistance
            invariant 1 <= offset <= WallDistance + 1
            invariant forall a, b :: InGrid(a, b) ==>
              u[a, b] == (if (a < i || (a == i && numY - offset <= b)) && InTopBand(a, b)
                          then BandRelax(old(u[a, b]), inflow, numY - 1 - b) else old(u[a, b]))
            invariant forall a, b :: InGrid(a, b) ==>
              v[a, b] == (if (a < i || (a == i && numY - offset <= b)) && InTopBand(a, b)
                          then TopSuction(numY - 1 - b) else old(v[a, b]))
          {
            var j := numY - 1 - offset;
            var blendFactor := 1.0 - offset as real / WallDistance as real;
            var targetU := inflow * (1.0 - 0.1 * blendFactor);
            assert blendFactor == Blend(offset) && targetU == WallTarget(inflow, offset);
            assert u[i, j] == old(u[i, j]) && InGrid(i, j);
            u[i, j] := u[i, j] * 0.8 + targetU * 0.2;
            v[i, j] := -0.05 * blendFactor;
            offset := offset + 1;
          }
          i := i + 1;
        }
      }
    }

    method BottomBandPass(inflow: real)
      requires Valid()
      modifies u, v
      ensures forall a, b :: InGrid(a, b) ==>
        u[a, b] == (if InBottomBand(a, b) then BandRelax(old(u[a, b]), inflow, b) else old(u[a, b]))
      ensures forall a, b :: InGrid(a, b) ==>
        v[a, b] == (if InBottomBand(a, b) then BottomSuction(b) else old(v[a, b]))
    {
      if numY > 4 {
        var i := 2;
        while i < numX - 2
          invariant 2 <= i && (i <= numX - 2 || i == 2)
          invariant forall a, b :: InGrid(a, b) ==>
            u[a, b] == (if a < i && InBottomBand(a, b) then BandRelax(old(u[a, b]), inflow, b) else old(u[a, b]))
          invariant forall a, b :: InGrid(a, b) ==>
            v[a, b] == (if a < i && InBottomBand(a, b) then BottomSuction(b) else old(v[a, b]))
        {
          var offset := 1;
          while offset <= WallDistance
            invariant 1 <= offset <= WallDistance + 1
            invariant forall a, b :: InGrid(a, b) ==>
              u[a, b] == (if Before(a, b, i, offset) && InBottomBand(a, b) then BandRelax(old(u[a, b]), inflow, b) else old(u[a, b]))
            invariant forall a, b :: InGrid(a, b) ==>
              v[a, b] == (if Before(a, b, i, offset) && InBottomBand(a, b) then BottomSuction(b) else old(v[a, b]))
          {
            var j := offset;
            var blendFactor := 1.0 - offset as real / WallDistance as real;
            var targetU := inflow * (1.0 - 0.1 * blendFactor);
            assert blendFactor == Blend(offset) && targetU == WallTarget(inflow, offset);
            assert u[i, j] == old(u[i, j]) && InGrid(i, j);
            u[i, j] := u[i, j] * 0.8 + targetU * 0.2;
            v[i, j] := 0.05 * blendFactor;
            offset := offset + 1;
          }
          i := i + 1;
        }
      }
    }

    method CorePass(inflow: real)
      requires Valid() && numX >= 10
      modifies u
      ensures forall a, b :: InGrid(a, b) ==>
        u[a, b] == (if InCore(a, b) then CoreRelax(old(u[a, b]), inflow) else old(u[a, b]))
    {
      var coreStart := numY / 4;
      var coreEnd := 3 * numY / 4;
      var i := 2;
      while i < numX - 10
        invariant 2 <= i && (i <= numX - 10 || i == 2)
        invariant forall a, b :: InGrid(a, b) ==>
          u[a, b] == (if a < i && InCore(a, b) then CoreRelax(old(u[a, b]), inflow) else old(u[a, b]))
      {
        var j := coreStart;
        while j < coreEnd
          invariant coreStart <= j && (j <= coreEnd || j == coreStart)
          invariant forall a, b :: InGrid(a, b) ==>
            u[a, b] == (if (a < i || (a == i && b < j)) && InCore(a, b) then CoreRelax(old(u[a, b]), inflow) else old(u[a, b]))
        {
          u[i, j] := u[i, j] * 0.95 + inflow * 0.05;
          j := j + 1;
        }
        i := i + 1;
      }
    }

    /** `apply_boundary_layer_control`: relaxes `u` in the two wall bands
        towards a near-inflow target and sets a small suction `v` there,
        then nudges the core `u` towards the inflow speed; every other face
        keeps its velocity. The core range `2..num_x-10` needs
        `num_x >= 10`, below which the subtraction underflows. */
    method ApplyBoundaryLayerControl(inflow: real)
      requires Valid() && numX >= 10
      modifies u, v
      ensures forall a, b :: InGrid(a, b) ==>
        u[a, b] == LayerControlledU(old(u[a, b]), a, b, inflow) &&
        v[a, b] == LayerControlledV(old(v[a, b]), a, b)
    {
      TopBandPass(inflow);
      BottomBandPass(inflow);
      CorePass(inflow);
    }

    /** The two wall bands are disjoint once the grid has at least eight
        rows; on five to seven rows they share rows, which the bottom pass
        then relaxes a second time. */
    lemma BandsOverlapOnlyOnSmallGrids(a: int, b: int)
      ensures numY >= 8 ==> !(InTopBand(a, b) && InBottomBand(a, b))
      ensures 5 <= numY <= 7 && 2 <= a < numX - 2 && b == 3 ==> InTopBand(a, b) && InBottomBand(a, b)
    {
    }
  }
}
