/** The per-slice updates of src/evolutors.cpp, as functions of one slice of
    the fields: the planar (1D) and spherical (3D) height solves of one
    momentum row, the momentum solve of one height column, and the explicit
    wave update of one cell. The imperative solvers of Engine are proved to
    write exactly these values. */
module Evolutors {
  import opened Units
  import opened Grids
  import opened Tridiag

  /** Coefficients U, C, L of the discretised transport operator at one node. */
  datatype Stencil = Stencil(up: real, center: real, low: real)

  /** What a solver call fixes for all slices: dt, dt_half,
      source_evolution(t_now, source_tdecay) and number_of_operators. */
  datatype StepParams = StepParams(dt: real, dtHalf: real, sourceFactor: real, operators: nat)

  /** The external physics helpers, opaque to the model. */
  datatype Physics = Physics(
    larmorRadius: PositiveFn,
    sourceEvolution: (real, real) -> real,
    pow15: real -> real,
    sqrt: real -> real)

  /** larmor_radius(p, B): positive for every argument, so that 1/r is defined. */
  type PositiveFn = f: (real, real) -> real | forall a, b :: f(a, b) > 0.0
    witness (a: real, b: real) => 1.0

  ghost predicate NonNegativeOnNonNegative(f: real -> real)
  {
    forall x :: 0.0 <= x ==> 0.0 <= f(x)
  }

  /** The share of the source one operator injects at a node:
      dt·(Q·source_evolution)/number_of_operators. */
  function Injection(q: real, sp: StepParams): real
    requires sp.operators > 0
  {
    sp.dt * (q * sp.sourceFactor) / sp.operators as real
  }

  function Injections(q: seq<real>, sp: StepParams): (r: seq<real>)
    requires sp.operators > 0
    ensures |r| == |q|
  {
    seq(|q|, i requires 0 <= i < |q| => Injection(q[i], sp))
  }

  /** Row i of a Crank–Nicolson right-hand side whose row i stands for node
      k + i of the slice f: f·(2 − C) minus the neighbours' terms that are
      inside the system, plus the injected source. */
  function RhsEntry(f: seq<real>, q: seq<real>, sp: StepParams, k: nat,
                    c: seq<real>, u: seq<real>, l: seq<real>, i: nat): real
    requires k + |c| <= |f| && k + |c| <= |q| && |u| == |c| - 1 && |l| == |c| - 1
    requires i < |c| && sp.operators > 0
  {
    f[k + i] * (2.0 - c[i])
    - (if i + 1 < |c| then f[k + i + 1] * u[i] else 0.0)
    - (if i > 0 then f[k + i - 1] * l[i - 1] else 0.0)
    + Injection(q[k + i], sp)
  }

  /** RhsEntry from the values an assembly loop reads: the node's own
      value, its neighbours' values where they enter, and its source. */
  lemma RhsEntryFromValues(f: seq<real>, q: seq<real>, sp: StepParams, k: nat,
                           c: seq<real>, u: seq<real>, l: seq<real>, i: nat,
                           fMid: real, fUp: real, fDown: real, qMid: real)
    requires k + |c| <= |f| && k + |c| <= |q| && |u| == |c| - 1 && |l| == |c| - 1
    requires i < |c| && sp.operators > 0
    requires fMid == f[k + i] && qMid == q[k + i]
    requires i + 1 < |c| ==> fUp == f[k + i + 1]
    requires i > 0 ==> fDown == f[k + i - 1]
    ensures RhsEntry(f, q, sp, k, c, u, l, i) ==
      fMid * (2.0 - c[i])
      - (if i + 1 < |c| then fUp * u[i] else 0.0)
      - (if i > 0 then fDown * l[i - 1] else 0.0)
      + Injection(qMid, sp)
  {
  }

  /** The rows RhsEntry(.., i) as a sequence; each row is tied to its
      definition only where that definition is mentioned. */
  lemma RhsEntries(f: seq<real>, q: seq<real>, sp: StepParams, k: nat,
                   c: seq<real>, u: seq<real>, l: seq<real>) returns (r: seq<real>)
    requires k + |c| <= |f| && k + |c| <= |q| && |u| == |c| - 1 && |l| == |c| - 1 && sp.operators > 0
    ensures |r| == |c|
    ensures forall i {:trigger RhsEntry(f, q, sp, k, c, u, l, i)} | 0 <= i < |c| :: r[i] == RhsEntry(f, q, sp, k, c, u, l, i)
  {
    r := seq(|c|, i requires 0 <= i < |c| => RhsEntry(f, q, sp, k, c, u, l, i));
  }

  /** RhsEntry is row i of ExplicitRhs over the slices f[k..k+n], q[k..k+n]. */
  lemma RhsRowAt(f: seq<real>, q: seq<real>, sp: StepParams, k: nat,
                 c: seq<real>, u: seq<real>, l: seq<real>, i: nat)
    requires |c| >= 1 && k + |c| <= |f| && k + |c| <= |q| && |u| == |c| - 1 && |l| == |c| - 1
    requires i < |c| && sp.operators > 0
    ensures ExplicitRhs(f[k..k + |c|], c, u, l, Injections(q[k..k + |c|], sp))[i] == RhsEntry(f, q, sp, k, c, u, l, i)
  {
    var x, inj := f[k..k + |c|], Injections(q[k..k + |c|], sp);
    ExplicitRhsAt(x, c, u, l, inj, i);
    assert |x| == |c|;
    assert x[i] == f[k + i] && inj[i] == Injection(q[k + i], sp);
    var mid := x[i] * (2.0 - c[i]);
    assert mid == f[k + i] * (2.0 - c[i]);
    var up := if i + 1 < |c| then x[i + 1] * u[i] else 0.0;
    var low := if i > 0 then x[i - 1] * l[i - 1] else 0.0;
    assert up == (if i + 1 < |c| then f[k + i + 1] * u[i] else 0.0) by {
      if i + 1 < |c| {
        assert x[i + 1] == f[k + i + 1];
      }
    }
    assert low == (if i > 0 then f[k + i - 1] * l[i - 1] else 0.0) by {
      if i > 0 {
        assert x[i - 1] == f[k + i - 1];
      }
    }
    assert ExplicitRhs(x, c, u, l, inj)[i] == mid - up - low + inj[i];
    assert RhsEntry(f, q, sp, k, c, u, l, i) == mid - up - low + inj[i];
  }

  // ---------------------------------------------------------------------------
  // Height (z) solves

  /** U, C, L at height iz from the local D_zz and its centred difference;
      the neighbours default to D_zz(iz) at the ends of the row. */
  function HeightStencil(d: seq<real>, iz: nat, dz: real): Stencil
    requires iz < |d| && dz != 0.0
  {
    var dzz := d[iz];
    var dzzUp := if iz < |d| - 1 then d[iz + 1] else dzz;
    var dzzDown := if iz > 0 then d[iz - 1] else dzz;
    var dzzOverDz2 := dzz / (dz * dz);
    var gradientTerm := (dzzUp - dzzDown) / 4.0 / (dz * dz);
    Stencil(dzzOverDz2 + gradientTerm, 2.0 * dzzOverDz2, dzzOverDz2 - gradientTerm)
  }

  /** The smallest radius the spherical geometric term divides by: 0.01 pc. */
  const RadiusFloor: real := 0.01 * Parsec

  /** max(|z(iz)|, 0.01 pc). */
  function Radius(z: seq<real>, iz: nat): (r: real)
    requires iz < |z|
    ensures r >= RadiusFloor && r >= Abs(z[iz])
    ensures r == RadiusFloor || r == Abs(z[iz])
  {
    Max(Abs(z[iz]), RadiusFloor)
  }

  /** The planar stencil plus the spherical term D/(dz·r), added to U and
      subtracted from L. */
  function SphericalStencil(d: seq<real>, z: seq<real>, iz: nat, dz: real): Stencil
    requires iz < |d| && iz < |z| && dz != 0.0
  {
    var planar := HeightStencil(d, iz, dz);
    var geometric := d[iz] / dz / Radius(z, iz);
    Stencil(planar.up + geometric, planar.center, planar.low - geometric)
  }

  /** Diagonal, super- and sub-diagonal of the planar system; row i stands
      for height iz = i + 1. */
  function SlabCentral(d: seq<real>, dz: real, sp: StepParams, i: nat): real
    requires i + 1 < |d| && dz != 0.0
  {
    1.0 + sp.dtHalf * HeightStencil(d, i + 1, dz).center
  }

  function SlabUpper(d: seq<real>, dz: real, sp: StepParams, i: nat): real
    requires i + 1 < |d| && dz != 0.0
  {
    -sp.dtHalf * HeightStencil(d, i + 1, dz).up
  }

  function SlabLower(d: seq<real>, dz: real, sp: StepParams, j: nat): real
    requires j + 2 < |d| && dz != 0.0
  {
    -sp.dtHalf * HeightStencil(d, j + 2, dz).low
  }

  /** The planar system of one momentum row: unknowns iz = 1 .. z_size-2. */
  function SlabSystem(f: seq<real>, d: seq<real>, q: seq<real>, dz: real, sp: StepParams): (s: System)
    requires |f| >= 3 && |d| == |f| && |q| == |f| && dz != 0.0 && sp.operators > 0
    ensures WellFormed(s) && |s.central| == |f| - 2
  {
    var n := |f| - 2;
    var c := seq(n, i requires 0 <= i < n => SlabCentral(d, dz, sp, i));
    var u := seq(n - 1, i requires 0 <= i < n - 1 => SlabUpper(d, dz, sp, i));
    var l := seq(n - 1, j requires 0 <= j < n - 1 => SlabLower(d, dz, sp, j));
    System(c, u, l, ExplicitRhs(f[1..n + 1], c, u, l, Injections(q[1..n + 1], sp)))
  }

  /** The planar coefficients as sequences; each entry is tied to its
      definition only where that definition is mentioned. */
  lemma SlabCoefficients(d: seq<real>, dz: real, sp: StepParams) returns (c: seq<real>, u: seq<real>, l: seq<real>)
    requires |d| >= 3 && dz != 0.0
    ensures |c| == |d| - 2 && |u| == |c| - 1 && |l| == |c| - 1
    ensures forall i {:trigger SlabCentral(d, dz, sp, i)} | 0 <= i < |c| :: c[i] == SlabCentral(d, dz, sp, i)
    ensures forall i {:trigger SlabUpper(d, dz, sp, i)} | 0 <= i < |u| :: u[i] == SlabUpper(d, dz, sp, i)
    ensures forall j {:trigger SlabLower(d, dz, sp, j)} | 0 <= j < |l| :: l[j] == SlabLower(d, dz, sp, j)
  {
    var n := |d| - 2;
    c := seq(n, i requires 0 <= i < n => SlabCentral(d, dz, sp, i));
    u := seq(n - 1, i requires 0 <= i < n - 1 => SlabUpper(d, dz, sp, i));
    l := seq(n - 1, j requires 0 <= j < n - 1 => SlabLower(d, dz, sp, j));
  }

  /** Coefficients and right-hand side assembled entry by entry are the
      planar system. */
  lemma SlabFromEntries(f: seq<real>, d: seq<real>, q: seq<real>, dz: real, sp: StepParams,
                        c: seq<real>, u: seq<real>, l: seq<real>, r: seq<real>)
    requires |f| >= 3 && |d| == |f| && |q| == |f| && dz != 0.0 && sp.operators > 0
    requires |c| == |f| - 2 && |r| == |c| && |u| == |c| - 1 && |l| == |c| - 1
    requires forall i | 0 <= i < |c| :: c[i] == SlabCentral(d, dz, sp, i)
    requires forall i | 0 <= i < |u| :: u[i] == SlabUpper(d, dz, sp, i)
    requires forall j | 0 <= j < |l| :: l[j] == SlabLower(d, dz, sp, j)
    requires forall i | 0 <= i < |r| :: r[i] == RhsEntry(f, q, sp, 1, c, u, l, i)
    ensures System(c, u, l, r) == SlabSystem(f, d, q, dz, sp)
  {
    var s := SlabSystem(f, d, q, dz, sp);
    var n := |f| - 2;
    assert c == s.central && u == s.upper && l == s.lower;
    assert f[1..n + 1] == f[1..1 + |c|] && q[1..n + 1] == q[1..1 + |c|];
    var e := s.rhs;
    forall i | 0 <= i < n
      ensures r[i] == e[i]
    {
      RhsRowAt(f, q, sp, 1, c, u, l, i);
    }
    assert r == e;
  }

  /** The planar write-back: node iz = 1 .. z_size-2 takes the solution
      averaged with its mirror image across the mid-plane, clamped at zero;
      both end nodes keep their old values. */
  function MirrorAverage(f: seq<real>, x: seq<real>): (r: seq<real>)
    requires |f| >= 3 && |x| == |f| - 2
    ensures |r| == |f|
    ensures r[0] == f[0] && r[|f| - 1] == f[|f| - 1]
    ensures forall iz | 1 <= iz <= |f| - 2 :: r[iz] >= 0.0 && r[iz] == r[|f| - 1 - iz]
  {
    seq(|f|, iz requires 0 <= iz < |f| =>
      if 1 <= iz <= |f| - 2 then Max(0.5 * (x[iz - 1] + x[|f| - 2 - iz]), 0.0) else f[iz])
  }

  /** The new planar row: the planar system solved and written back. */
  function SlabUpdate(f: seq<real>, d: seq<real>, q: seq<real>, dz: real, sp: StepParams, solve: Solver): (r: seq<real>)
    requires |f| >= 3 && |d| == |f| && |q| == |f| && dz != 0.0 && sp.operators > 0
    ensures |r| == |f|
    ensures r[0] == f[0] && r[|f| - 1] == f[|f| - 1]
    ensures forall iz | 1 <= iz <= |f| - 2 :: r[iz] >= 0.0 && r[iz] == r[|f| - 1 - iz]
  {
    var s := SlabSystem(f, d, q, dz, sp);
    MirrorAverage(f, solve(s.central, s.upper, s.lower, s.rhs))
  }

  /** Diagonal, super- and sub-diagonal of the spherical system; row i
      stands for height iz = i. In row 0 the lower coefficient, which would
      multiply the node below the origin, is folded into the upper one. */
  function SphericalCentral(d: seq<real>, z: seq<real>, dz: real, sp: StepParams, i: nat): real
    requires i < |d| && i < |z| && dz != 0.0
  {
    1.0 + sp.dtHalf * SphericalStencil(d, z, i, dz).center
  }

  function SphericalUpper(d: seq<real>, z: seq<real>, dz: real, sp: StepParams, i: nat): real
    requires i < |d| && i < |z| && dz != 0.0
  {
    if i == 0 then -sp.dtHalf * SphericalStencil(d, z, 0, dz).up + -sp.dtHalf * SphericalStencil(d, z, 0, dz).low
    else -sp.dtHalf * SphericalStencil(d, z, i, dz).up
  }

  function SphericalLower(d: seq<real>, z: seq<real>, dz: real, sp: StepParams, j: nat): real
    requires j + 1 < |d| && j + 1 < |z| && dz != 0.0
  {
    -sp.dtHalf * SphericalStencil(d, z, j + 1, dz).low
  }

  /** The spherical system of one momentum row: unknowns iz = 0 .. z_size-2. */
  function SphericalSystem(f: seq<real>, d: seq<real>, q: seq<real>, z: seq<real>, dz: real, sp: StepParams): (s: System)
    requires |f| >= 3 && |d| == |f| && |q| == |f| && |z| == |f| && dz != 0.0 && sp.operators > 0
    ensures WellFormed(s) && |s.central| == |f| - 1
  {
    var n := |f| - 1;
    var c := seq(n, i requires 0 <= i < n => SphericalCentral(d, z, dz, sp, i));
    var u := seq(n - 1, i requires 0 <= i < n - 1 => SphericalUpper(d, z, dz, sp, i));
    var l := seq(n - 1, j requires 0 <= j < n - 1 => SphericalLower(d, z, dz, sp, j));
    System(c, u, l, ExplicitRhs(f[..n], c, u, l, Injections(q[..n], sp)))
  }

  /** The spherical coefficients as sequences; each entry is tied to its
      definition only where that definition is mentioned. */
  lemma SphericalCoefficients(d: seq<real>, z: seq<real>, dz: real, sp: StepParams) returns (c: seq<real>, u: seq<real>, l: seq<real>)
    requires |d| >= 3 && |z| == |d| && dz != 0.0
    ensures |c| == |d| - 1 && |u| == |c| - 1 && |l| == |c| - 1
    ensures forall i {:trigger SphericalCentral(d, z, dz, sp, i)} | 0 <= i < |c| :: c[i] == SphericalCentral(d, z, dz, sp, i)
    ensures forall i {:trigger SphericalUpper(d, z, dz, sp, i)} | 0 <= i < |u| :: u[i] == SphericalUpper(d, z, dz, sp, i)
    ensures forall j {:trigger SphericalLower(d, z, dz, sp, j)} | 0 <= j < |l| :: l[j] == SphericalLower(d, z, dz, sp, j)
  {
    var n := |d| - 1;
    c := seq(n, i requires 0 <= i < n => SphericalCentral(d, z, dz, sp, i));
    u := seq(n - 1, i requires 0 <= i < n - 1 => SphericalUpper(d, z, dz, sp, i));
    l := seq(n - 1, j requires 0 <= j < n - 1 => SphericalLower(d, z, dz, sp, j));
  }

  /** Coefficients and right-hand side assembled entry by entry are the
      spherical system. */
  lemma SphericalFromEntries(f: seq<real>, d: seq<real>, q: seq<real>, z: seq<real>, dz: real, sp: StepParams,
                             c: seq<real>, u: seq<real>, l: seq<real>, r: seq<real>)
    requires |f| >= 3 && |d| == |f| && |q| == |f| && |z| == |f| && dz != 0.0 && sp.operators > 0
    requires |c| == |f| - 1 && |r| == |c| && |u| == |c| - 1 && |l| == |c| - 1
    requires forall i | 0 <= i < |c| :: c[i] == SphericalCentral(d, z, dz, sp, i)
    requires forall i | 0 <= i < |u| :: u[i] == SphericalUpper(d, z, dz, sp, i)
    requires forall j | 0 <= j < |l| :: l[j] == SphericalLower(d, z, dz, sp, j)
    requires forall i | 0 <= i < |r| :: r[i] == RhsEntry(f, q, sp, 0, c, u, l, i)
    ensures System(c, u, l, r) == SphericalSystem(f, d, q, z, dz, sp)
  {
    var s := SphericalSystem(f, d, q, z, dz, sp);
    var n := |f| - 1;
    assert c == s.central && u == s.upper && l == s.lower;
    assert f[..n] == f[0..0 + |c|] && q[..n] == q[0..0 + |c|];
    var e := s.rhs;
    forall i | 0 <= i < n
      ensures r[i] == e[i]
    {
      RhsRowAt(f, q, sp, 0, c, u, l, i);
    }
    assert r == e;
  }

  /** The write-back of the spherical and momentum solves: every node but
      the last takes the solution clamped at zero; the last keeps its old
      value. */
  function ClampedSolution(f: seq<real>, x: seq<real>): (r: seq<real>)
    requires |f| >= 1 && |x| == |f| - 1
    ensures |r| == |f|
    ensures r[|f| - 1] == f[|f| - 1]
    ensures forall i | 0 <= i < |f| - 1 :: r[i] >= 0.0 && r[i] >= x[i]
  {
    seq(|f|, i requires 0 <= i < |f| => if i < |f| - 1 then Max(x[i], 0.0) else f[i])
  }

  /** The new spherical row: the spherical system solved and written back. */
  function SphericalUpdate(f: seq<real>, d: seq<real>, q: seq<real>, z: seq<real>, dz: real, sp: StepParams, solve: Solver): (r: seq<real>)
    requires |f| >= 3 && |d| == |f| && |q| == |f| && |z| == |f| && dz != 0.0 && sp.operators > 0
    ensures |r| == |f|
    ensures r[|f| - 1] == f[|f| - 1]
    ensures forall iz | 0 <= iz < |f| - 1 :: r[iz] >= 0.0
  {
    var s := SphericalSystem(f, d, q, z, dz, sp);
    ClampedSolution(f, solve(s.central, s.upper, s.lower, s.rhs))
  }

  // ---------------------------------------------------------------------------
  // Momentum (p) solve

  /** The divisions of the momentum stencil are defined: p(ip) ≠ 0 and
      p(ip+1) ≠ p(ip) below the last bin (a strictly increasing axis of
      non-zero momenta has this). */
  predicate MomentumSpacing(p: seq<real>)
  {
    forall i | 0 <= i < |p| - 1 :: p[i] != 0.0 && p[i + 1] != p[i]
  }

  /** U, C, L at momentum bin ip from the loss rate dp_dt; the adiabatic term
      b_i is switched off (0), so L stays 0. */
  function MomentumStencil(p: seq<real>, dpdt: seq<real>, ip: nat): Stencil
    requires ip < |p| - 1 && |dpdt| == |p| && MomentumSpacing(p)
  {
    var b := 0.0;
    var lower := 0.0;
    var center := 0.0 + b - dpdt[ip] / (p[ip + 1] - p[ip]);
    var up := 0.0 + b - (p[ip + 1] / p[ip]) * (p[ip + 1] / p[ip]) * dpdt[ip + 1] / (p[ip + 1] - p[ip]);
    Stencil(up, center, lower)
  }

  /** Diagonal, super- and sub-diagonal of the momentum system; row i
      stands for momentum bin ip = i. */
  function MomentumCentral(p: seq<real>, dpdt: seq<real>, sp: StepParams, i: nat): real
    requires i < |p| - 1 && |dpdt| == |p| && MomentumSpacing(p)
  {
    1.0 + sp.dtHalf * MomentumStencil(p, dpdt, i).center
  }

  function MomentumUpper(p: seq<real>, dpdt: seq<real>, sp: StepParams, i: nat): real
    requires i < |p| - 1 && |dpdt| == |p| && MomentumSpacing(p)
  {
    -sp.dtHalf * MomentumStencil(p, dpdt, i).up
  }

  function MomentumLower(p: seq<real>, dpdt: seq<real>, sp: StepParams, j: nat): real
    requires j + 1 < |p| - 1 && |dpdt| == |p| && MomentumSpacing(p)
  {
    -sp.dtHalf * MomentumStencil(p, dpdt, j + 1).low
  }

  /** The system of one height column: unknowns ip = 0 .. p_size-2. */
  function MomentumSystem(f: seq<real>, q: seq<real>, p: seq<real>, dpdt: seq<real>, sp: StepParams): (s: System)
    requires |f| >= 2 && |q| == |f| && |p| == |f| && |dpdt| == |f| && MomentumSpacing(p) && sp.operators > 0
    ensures WellFormed(s) && |s.central| == |f| - 1
  {
    var n := |f| - 1;
    var c := seq(n, i requires 0 <= i < n => MomentumCentral(p, dpdt, sp, i));
    var u := seq(n - 1, i requires 0 <= i < n - 1 => MomentumUpper(p, dpdt, sp, i));
    var l := seq(n - 1, j requires 0 <= j < n - 1 => MomentumLower(p, dpdt, sp, j));
    System(c, u, l, ExplicitRhs(f[..n], c, u, l, Injections(q[..n], sp)))
  }

  /** The momentum coefficients as sequences; each entry is tied to its
      definition only where that definition is mentioned. */
  lemma MomentumCoefficientSeqs(p: seq<real>, dpdt: seq<real>, sp: StepParams) returns (c: seq<real>, u: seq<real>, l: seq<real>)
    requires |p| >= 2 && |dpdt| == |p| && MomentumSpacing(p)
    ensures |c| == |p| - 1 && |u| == |c| - 1 && |l| == |c| - 1
    ensures forall i {:trigger MomentumCentral(p, dpdt, sp, i)} | 0 <= i < |c| :: c[i] == MomentumCentral(p, dpdt, sp, i)
    ensures forall i {:trigger MomentumUpper(p, dpdt, sp, i)} | 0 <= i < |u| :: u[i] == MomentumUpper(p, dpdt, sp, i)
    ensures forall j {:trigger MomentumLower(p, dpdt, sp, j)} | 0 <= j < |l| :: l[j] == MomentumLower(p, dpdt, sp, j)
  {
    var n := |p| - 1;
    c := seq(n, i requires 0 <= i < n => MomentumCentral(p, dpdt, sp, i));
    u := seq(n - 1, i requires 0 <= i < n - 1 => MomentumUpper(p, dpdt, sp, i));
    l := seq(n - 1, j requires 0 <= j < n - 1 => MomentumLower(p, dpdt, sp, j));
  }

  /** Coefficients and right-hand side assembled entry by entry are the
      momentum system. */
  lemma MomentumFromEntries(f: seq<real>, q: seq<real>, p: seq<real>, dpdt: seq<real>, sp: StepParams,
                            c: seq<real>, u: seq<real>, l: seq<real>, r: seq<real>)
    requires |f| >= 2 && |q| == |f| && |p| == |f| && |dpdt| == |f| && MomentumSpacing(p) && sp.operators > 0
    requires |c| == |f| - 1 && |r| == |c| && |u| == |c| - 1 && |l| == |c| - 1
    requires forall i | 0 <= i < |c| :: c[i] == MomentumCentral(p, dpdt, sp, i)
    requires forall i | 0 <= i < |u| :: u[i] == MomentumUpper(p, dpdt, sp, i)
    requires forall j | 0 <= j < |l| :: l[j] == MomentumLower(p, dpdt, sp, j)
    requires forall i | 0 <= i < |r| :: r[i] == RhsEntry(f, q, sp, 0, c, u, l, i)
    ensures System(c, u, l, r) == MomentumSystem(f, q, p, dpdt, sp)
  {
    var s := MomentumSystem(f, q, p, dpdt, sp);
    var n := |f| - 1;
    assert c == s.central && u == s.upper && l == s.lower;
    assert f[..n] == f[0..0 + |c|] && q[..n] == q[0..0 + |c|];
    var e := s.rhs;
    forall i | 0 <= i < n
      ensures r[i] == e[i]
    {
      RhsRowAt(f, q, sp, 0, c, u, l, i);
    }
    assert r == e;
  }

  /** The new column: the momentum system solved and written back. */
  function MomentumUpdate(f: seq<real>, q: seq<real>, p: seq<real>, dpdt: seq<real>, sp: StepParams, solve: Solver): (r: seq<real>)
    requires |f| >= 2 && |q| == |f| && |p| == |f| && |dpdt| == |f| && MomentumSpacing(p) && sp.operators > 0
    ensures |r| == |f|
    ensures r[|f| - 1] == f[|f| - 1]
    ensures forall ip | 0 <= ip < |f| - 1 :: r[ip] >= 0.0
  {
    var s := MomentumSystem(f, q, p, dpdt, sp);
    ClampedSolution(f, solve(s.central, s.upper, s.lower, s.rhs))
  }

  // ---------------------------------------------------------------------------
  // Wave growth and damping

  /** The per-call constants of the wave update. */
  datatype WaveStep = WaveStep(dt: real, operators: nat, factorDamping: real, factorGrowth: real, doKolmogorov: bool)

  /** k = 1 / larmor_radius(p, B). */
  function Wavenumber(phys: Physics, p: real, magneticField: real): (k: real)
    ensures k > 0.0
  {
    1.0 / phys.larmorRadius(p, magneticField)
  }

  /** The damping rate as evidently intended: factor_damping times either the
      Kolmogorov rate k^1.5·√W or the turbulent rate k²·W. */
  function DampingRate(phys: Physics, k: real, w: real, ws: WaveStep): real
  {
    ws.factorDamping * (if ws.doKolmogorov then phys.pow15(k) * phys.sqrt(w) else k * k * w)
  }

  /** The damping rate as the source computes it: the product
      factor_damping·do_kolmogorov is the condition of the conditional, and
      factor_damping multiplies neither branch. */
  function DampingRateAsWritten(phys: Physics, k: real, w: real, ws: WaveStep): real
  {
    if ws.factorDamping * (if ws.doKolmogorov then 1.0 else 0.0) != 0.0 then phys.pow15(k) * phys.sqrt(w) else k * k * w
  }

  /** One forward-Euler step of W_sg at one cell, clamped at zero, for a given
      damping rate gammaD. */
  function WaveCell(phys: Physics, w: real, wIsm: real, dfdz: real, p: real, k: real, gammaD: real, ws: WaveStep): real
    requires k > 0.0 && ws.operators > 0
  {
    var gammaGal := ws.factorDamping * phys.pow15(k) * phys.sqrt(wIsm);
    var growth := ws.factorGrowth / k * (p * p * p * p) * dfdz;
    var qw := growth - gammaD * w + gammaGal * wIsm;
    Max(w + ws.dt * qw / ws.operators as real, 0.0)
  }

  // ---------------------------------------------------------------------------
  // Whole-field sweeps: one solver call over every slice it touches

  /** evolve_f_in_z_1D: every momentum row but the last replaced by its
      planar update. */
  function SlabSweep(f: seq<seq<real>>, d: seq<seq<real>>, q: seq<seq<real>>, cols: nat,
                     dz: real, sp: StepParams, solve: Solver): (r: seq<seq<real>>)
    requires IsGrid(f, |f|, cols) && IsGrid(d, |f|, cols) && IsGrid(q, |f|, cols)
    requires cols >= 3 && dz != 0.0 && sp.operators > 0
    ensures IsGrid(r, |f|, cols)
    ensures |f| >= 1 ==> r[|f| - 1] == f[|f| - 1]
    ensures forall ip | 0 <= ip < |f| :: r[ip][0] == f[ip][0] && r[ip][cols - 1] == f[ip][cols - 1]
    ensures forall ip, iz | 0 <= ip < |f| - 1 && 1 <= iz <= cols - 2 ::
      r[ip][iz] >= 0.0 && r[ip][iz] == r[ip][cols - 1 - iz]
  {
    seq(|f|, ip requires 0 <= ip < |f| => SlabRow(f, d, q, cols, dz, sp, solve, ip))
  }

  /** Row ip of the planar sweep: the planar update below the top row, the
      row itself at the top. */
  function SlabRow(f: seq<seq<real>>, d: seq<seq<real>>, q: seq<seq<real>>, cols: nat,
                   dz: real, sp: StepParams, solve: Solver, ip: nat): (r: seq<real>)
    requires IsGrid(f, |f|, cols) && IsGrid(d, |f|, cols) && IsGrid(q, |f|, cols)
    requires cols >= 3 && dz != 0.0 && sp.operators > 0 && ip < |f|
    ensures |r| == cols && r[0] == f[ip][0] && r[cols - 1] == f[ip][cols - 1]
    ensures ip == |f| - 1 ==> r == f[ip]
    ensures ip < |f| - 1 ==> forall iz | 1 <= iz <= cols - 2 :: r[iz] >= 0.0 && r[iz] == r[cols - 1 - iz]
  {
    if ip < |f| - 1 then SlabUpdate(f[ip], d[ip], q[ip], dz, sp, solve) else f[ip]
  }

  /** evolve_f_in_z_3D: every momentum row but the last replaced by its
      spherical update. */
  function SphericalSweep(f: seq<seq<real>>, d: seq<seq<real>>, q: seq<seq<real>>, z: seq<real>,
                          dz: real, sp: StepParams, solve: Solver): (r: seq<seq<real>>)
    requires IsGrid(f, |f|, |z|) && IsGrid(d, |f|, |z|) && IsGrid(q, |f|, |z|)
    requires |z| >= 3 && dz != 0.0 && sp.operators > 0
    ensures IsGrid(r, |f|, |z|)
    ensures |f| >= 1 ==> r[|f| - 1] == f[|f| - 1]
    ensures forall ip | 0 <= ip < |f| :: r[ip][|z| - 1] == f[ip][|z| - 1]
    ensures forall ip, iz | 0 <= ip < |f| - 1 && 0 <= iz < |z| - 1 :: r[ip][iz] >= 0.0
  {
    seq(|f|, ip requires 0 <= ip < |f| =>
      if ip < |f| - 1 then SphericalUpdate(f[ip], d[ip], q[ip], z, dz, sp, solve) else f[ip])
  }

  /** evolve_f_in_z: the spherical sweep when do_3D is set, the planar one
      otherwise. */
  function HeightSweep(do3D: bool, f: seq<seq<real>>, d: seq<seq<real>>, q: seq<seq<real>>, z: seq<real>,
                       dz: real, sp: StepParams, solve: Solver): (r: seq<seq<real>>)
    requires IsGrid(f, |f|, |z|) && IsGrid(d, |f|, |z|) && IsGrid(q, |f|, |z|)
    requires |z| >= 3 && dz != 0.0 && sp.operators > 0
    ensures IsGrid(r, |f|, |z|)
    ensures |f| >= 1 ==> r[|f| - 1] == f[|f| - 1]
  {
    if do3D then SphericalSweep(f, d, q, z, dz, sp, solve) else SlabSweep(f, d, q, |z|, dz, sp, solve)
  }

  /** Height column iz of a field. */
  function Column(g: seq<seq<real>>, cols: nat, iz: nat): (c: seq<real>)
    requires IsGrid(g, |g|, cols) && iz < cols
    ensures |c| == |g| && forall ip | 0 <= ip < |g| :: c[ip] == g[ip][iz]
  {
    seq(|g|, ip requires 0 <= ip < |g| => g[ip][iz])
  }

  /** evolve_f_in_p: every height column but the two end ones replaced by its
      momentum update. */
  function MomentumSweep(f: seq<seq<real>>, q: seq<seq<real>>, p: seq<real>, dpdt: seq<real>, cols: nat,
                         sp: StepParams, solve: Solver): (r: seq<seq<real>>)
    requires |f| >= 2 && IsGrid(f, |f|, cols) && IsGrid(q, |f|, cols)
    requires |p| == |f| && |dpdt| == |f| && MomentumSpacing(p) && sp.operators > 0
    ensures IsGrid(r, |f|, cols)
    ensures r[|f| - 1] == f[|f| - 1]
    ensures forall ip | 0 <= ip < |f| :: cols >= 1 ==> r[ip][0] == f[ip][0] && r[ip][cols - 1] == f[ip][cols - 1]
    ensures forall ip, iz | 0 <= ip < |f| - 1 && 1 <= iz <= cols - 2 :: r[ip][iz] >= 0.0
  {
    seq(|f|, ip requires 0 <= ip < |f| =>
      seq(cols, iz requires 0 <= iz < cols =>
        if 1 <= iz <= cols - 2 then MomentumUpdate(Column(f, cols, iz), Column(q, cols, iz), p, dpdt, sp, solve)[ip]
        else f[ip][iz]))
  }

  /** evolve_waves: every cell of W_sg advanced by WaveCell with the damping
      rate as the source computes it. */
  function WaveSweep(phys: Physics, w: seq<seq<real>>, wIsm: seq<seq<real>>, dfdz: seq<seq<real>>, p: seq<real>,
                     cols: nat, magneticField: real, ws: WaveStep): (r: seq<seq<real>>)
    requires IsGrid(w, |p|, cols) && IsGrid(wIsm, |p|, cols) && IsGrid(dfdz, |p|, cols) && ws.operators > 0
    ensures IsGrid(r, |p|, cols) && NonNegativeGrid(r)
  {
    seq(|p|, ip requires 0 <= ip < |p| =>
      var k := Wavenumber(phys, p[ip], magneticField);
      seq(cols, iz requires 0 <= iz < cols =>
        WaveCell(phys, w[ip][iz], wIsm[ip][iz], dfdz[ip][iz], p[ip], k, DampingRateAsWritten(phys, k, w[ip][iz], ws), ws)))
  }

  // ---------------------------------------------------------------------------
  // Properties

  /** Both height sweeps keep a non-negative distribution non-negative:
      every updated node is clamped at zero and every other node keeps its
      value. */
  lemma HeightSweepNonNegative(do3D: bool, f: seq<seq<real>>, d: seq<seq<real>>, q: seq<seq<real>>, z: seq<real>,
                               dz: real, sp: StepParams, solve: Solver)
    requires IsGrid(f, |f|, |z|) && IsGrid(d, |f|, |z|) && IsGrid(q, |f|, |z|)
    requires |z| >= 3 && dz != 0.0 && sp.operators > 0
    requires NonNegativeGrid(f)
    ensures NonNegativeGrid(HeightSweep(do3D, f, d, q, z, dz, sp, solve))
  {
    var r := HeightSweep(do3D, f, d, q, z, dz, sp, solve);
    forall ip, iz | 0 <= ip < |r| && 0 <= iz < |r[ip]|
      ensures r[ip][iz] >= 0.0
    {
      if ip == |f| - 1 || iz == |z| - 1 || (!do3D && iz == 0) {
        assert r[ip][iz] == f[ip][iz];
      }
    }
  }

  /** The momentum sweep keeps a non-negative distribution non-negative. */
  lemma MomentumSweepNonNegative(f: seq<seq<real>>, q: seq<seq<real>>, p: seq<real>, dpdt: seq<real>, cols: nat,
                                 sp: StepParams, solve: Solver)
    requires |f| >= 2 && IsGrid(f, |f|, cols) && IsGrid(q, |f|, cols)
    requires |p| == |f| && |dpdt| == |f| && MomentumSpacing(p) && sp.operators > 0
    requires NonNegativeGrid(f)
    ensures NonNegativeGrid(MomentumSweep(f, q, p, dpdt, cols, sp, solve))
  {
    var r := MomentumSweep(f, q, p, dpdt, cols, sp, solve);
    forall ip, iz | 0 <= ip < |r| && 0 <= iz < |r[ip]|
      ensures r[ip][iz] >= 0.0
    {
      if ip == |f| - 1 || iz == 0 || iz == cols - 1 {
        assert r[ip][iz] == f[ip][iz];
      }
    }
  }

  /** The planar right-hand side is (2I − A)·f + dt·Q·source/n over the
      interior nodes iz = 1 .. z_size-2; the end nodes do not enter it. */
  lemma CrankNicolsonSlab(f: seq<real>, d: seq<real>, q: seq<real>, dz: real, sp: StepParams)
    requires |f| >= 3 && |d| == |f| && |q| == |f| && dz != 0.0 && sp.operators > 0
    ensures var s := SlabSystem(f, d, q, dz, sp);
      forall i | 0 <= i < |f| - 2 ::
        s.rhs[i] == 2.0 * f[i + 1] - Apply(s, f[1..|f| - 1])[i] + Injection(q[i + 1], sp)
  {
    var s := SlabSystem(f, d, q, dz, sp);
    var x, inj := f[1..|f| - 1], Injections(q[1..|f| - 1], sp);
    CrankNicolsonRhs(s, x, inj);
    forall i | 0 <= i < |f| - 2
      ensures s.rhs[i] == 2.0 * f[i + 1] - Apply(s, x)[i] + Injection(q[i + 1], sp)
    {
      assert q[1..|f| - 1][i] == q[i + 1];
      assert x[i] == f[i + 1] && inj[i] == Injection(q[i + 1], sp);
    }
  }

  /** The spherical right-hand side is (2I − A)·f + dt·Q·source/n over
      iz = 0 .. z_size-2, with the folded coefficient in A; the outer node
      does not enter it. */
  lemma CrankNicolsonSpherical(f: seq<real>, d: seq<real>, q: seq<real>, z: seq<real>, dz: real, sp: StepParams)
    requires |f| >= 3 && |d| == |f| && |q| == |f| && |z| == |f| && dz != 0.0 && sp.operators > 0
    ensures var s := SphericalSystem(f, d, q, z, dz, sp);
      forall i | 0 <= i < |f| - 1 ::
        s.rhs[i] == 2.0 * f[i] - Apply(s, f[..|f| - 1])[i] + Injection(q[i], sp)
  {
    var s := SphericalSystem(f, d, q, z, dz, sp);
    var x, inj := f[..|f| - 1], Injections(q[..|f| - 1], sp);
    CrankNicolsonRhs(s, x, inj);
    forall i | 0 <= i < |f| - 1
      ensures s.rhs[i] == 2.0 * f[i] - Apply(s, x)[i] + Injection(q[i], sp)
    {
      assert q[..|f| - 1][i] == q[i];
      assert x[i] == f[i] && inj[i] == Injection(q[i], sp);
    }
  }

  /** The momentum right-hand side is (2I − A)·f + dt·Q·source/n over
      ip = 0 .. p_size-2; the last bin does not enter it. */
  lemma CrankNicolsonMomentum(f: seq<real>, q: seq<real>, p: seq<real>, dpdt: seq<real>, sp: StepParams)
    requires |f| >= 2 && |q| == |f| && |p| == |f| && |dpdt| == |f| && MomentumSpacing(p) && sp.operators > 0
    ensures var s := MomentumSystem(f, q, p, dpdt, sp);
      forall i | 0 <= i < |f| - 1 ::
        s.rhs[i] == 2.0 * f[i] - Apply(s, f[..|f| - 1])[i] + Injection(q[i], sp)
  {
    var s := MomentumSystem(f, q, p, dpdt, sp);
    var x, inj := f[..|f| - 1], Injections(q[..|f| - 1], sp);
    CrankNicolsonRhs(s, x, inj);
    forall i | 0 <= i < |f| - 1
      ensures s.rhs[i] == 2.0 * f[i] - Apply(s, x)[i] + Injection(q[i], sp)
    {
      assert q[..|f| - 1][i] == q[i];
      assert x[i] == f[i] && inj[i] == Injection(q[i], sp);
    }
  }

  /** At the origin the gradient and spherical terms cancel: the first
      upper coefficient is −dt_half·(U + L) = −dt_half·2·D/dz², and the
      radius used there is at least the positive floor. */
  lemma SphericalOriginFold(f: seq<real>, d: seq<real>, q: seq<real>, z: seq<real>, dz: real, sp: StepParams)
    requires |f| >= 3 && |d| == |f| && |q| == |f| && |z| == |f| && dz != 0.0 && sp.operators > 0
    ensures SphericalSystem(f, d, q, z, dz, sp).upper[0] == -sp.dtHalf * (2.0 * (d[0] / (dz * dz)))
    ensures Radius(z, 0) > 0.0
  {
    var s := SphericalSystem(f, d, q, z, dz, sp);
    var st := SphericalStencil(d, z, 0, dz);
    var planar := HeightStencil(d, 0, dz);
    assert s.upper[0] == -sp.dtHalf * st.up + -sp.dtHalf * st.low;
    assert -sp.dtHalf * st.up + -sp.dtHalf * st.low == -sp.dtHalf * (st.up + st.low);
    assert st.up + st.low == planar.up + planar.low;
    assert planar.up + planar.low == 2.0 * (d[0] / (dz * dz));
  }

  /** The momentum system is upper bidiagonal (every sub-diagonal entry is
      0), with C and U taken from dp_dt at the bin and at the bin above:
      central = 1 − dt_half·dp_dt(ip)/(p(ip+1) − p(ip)) and
      upper = dt_half·(p(ip+1)/p(ip))²·dp_dt(ip+1)/(p(ip+1) − p(ip)). */
  lemma MomentumCoefficients(f: seq<real>, q: seq<real>, p: seq<real>, dpdt: seq<real>, sp: StepParams)
    requires |f| >= 2 && |q| == |f| && |p| == |f| && |dpdt| == |f| && MomentumSpacing(p) && sp.operators > 0
    ensures var s := MomentumSystem(f, q, p, dpdt, sp);
      (forall j | 0 <= j < |f| - 2 :: s.lower[j] == 0.0) &&
      (forall i | 0 <= i < |f| - 1 :: s.central[i] == 1.0 - sp.dtHalf * LossCoefficient(p, dpdt, i)) &&
      (forall i | 0 <= i < |f| - 2 :: s.upper[i] == sp.dtHalf * GainCoefficient(p, dpdt, i))
  {
    var s := MomentumSystem(f, q, p, dpdt, sp);
    forall i | 0 <= i < |f| - 1
      ensures s.central[i] == 1.0 - sp.dtHalf * LossCoefficient(p, dpdt, i)
    {
      MomentumStencilValues(p, dpdt, i);
    }
    forall i | 0 <= i < |f| - 2
      ensures s.upper[i] == sp.dtHalf * GainCoefficient(p, dpdt, i)
    {
      MomentumStencilValues(p, dpdt, i);
    }
  }

  /** dp_dt(ip)/(p(ip+1) − p(ip)). */
  function LossCoefficient(p: seq<real>, dpdt: seq<real>, ip: nat): real
    requires ip < |p| - 1 && |dpdt| == |p| && MomentumSpacing(p)
  {
    dpdt[ip] / (p[ip + 1] - p[ip])
  }

  /** (p(ip+1)/p(ip))²·dp_dt(ip+1)/(p(ip+1) − p(ip)). */
  function GainCoefficient(p: seq<real>, dpdt: seq<real>, ip: nat): real
    requires ip < |p| - 1 && |dpdt| == |p| && MomentumSpacing(p)
  {
    (p[ip + 1] / p[ip]) * (p[ip + 1] / p[ip]) * dpdt[ip + 1] / (p[ip + 1] - p[ip])
  }

  lemma MomentumStencilValues(p: seq<real>, dpdt: seq<real>, ip: nat)
    requires ip < |p| - 1 && |dpdt| == |p| && MomentumSpacing(p)
    ensures MomentumStencil(p, dpdt, ip) == Stencil(-GainCoefficient(p, dpdt, ip), -LossCoefficient(p, dpdt, ip), 0.0)
  {
  }

  /** The end nodes of a planar row are held fixed and do not influence the
      interior update. */
  lemma SlabIgnoresEndNodes(f: seq<real>, a: real, b: real, d: seq<real>, q: seq<real>, dz: real, sp: StepParams, solve: Solver)
    requires |f| >= 3 && |d| == |f| && |q| == |f| && dz != 0.0 && sp.operators > 0
    ensures var g := f[0 := a][|f| - 1 := b];
      forall iz | 1 <= iz <= |f| - 2 :: SlabUpdate(g, d, q, dz, sp, solve)[iz] == SlabUpdate(f, d, q, dz, sp, solve)[iz]
  {
    var g := f[0 := a][|f| - 1 := b];
    assert g[1..|f| - 1] == f[1..|f| - 1];
    assert SlabSystem(g, d, q, dz, sp) == SlabSystem(f, d, q, dz, sp);
  }

  /** The outer node of a spherical row does not influence the update. */
  lemma SphericalIgnoresOuterNode(f: seq<real>, b: real, d: seq<real>, q: seq<real>, z: seq<real>, dz: real, sp: StepParams, solve: Solver)
    requires |f| >= 3 && |d| == |f| && |q| == |f| && |z| == |f| && dz != 0.0 && sp.operators > 0
    ensures var g := f[|f| - 1 := b];
      forall iz | 0 <= iz < |f| - 1 :: SphericalUpdate(g, d, q, z, dz, sp, solve)[iz] == SphericalUpdate(f, d, q, z, dz, sp, solve)[iz]
  {
    var g := f[|f| - 1 := b];
    assert g[..|f| - 1] == f[..|f| - 1];
    assert SphericalSystem(g, d, q, z, dz, sp) == SphericalSystem(f, d, q, z, dz, sp);
  }

  /** The last momentum bin of a column does not influence the update. */
  lemma MomentumIgnoresLastBin(f: seq<real>, b: real, q: seq<real>, p: seq<real>, dpdt: seq<real>, sp: StepParams, solve: Solver)
    requires |f| >= 2 && |q| == |f| && |p| == |f| && |dpdt| == |f| && MomentumSpacing(p) && sp.operators > 0
    ensures var g := f[|f| - 1 := b];
      forall ip | 0 <= ip < |f| - 1 :: MomentumUpdate(g, q, p, dpdt, sp, solve)[ip] == MomentumUpdate(f, q, p, dpdt, sp, solve)[ip]
  {
    var g := f[|f| - 1 := b];
    assert g[..|f| - 1] == f[..|f| - 1];
    assert MomentumSystem(g, q, p, dpdt, sp) == MomentumSystem(f, q, p, dpdt, sp);
  }

  /** Without a CR gradient and without background waves, a non-negative
      damping rate can only lower W_sg, and the result stays non-negative. */
  lemma WaveCellNoGrowth(phys: Physics, w: real, p: real, k: real, gammaD: real, ws: WaveStep)
    requires k > 0.0 && ws.operators > 0
    requires w >= 0.0 && gammaD >= 0.0 && ws.dt >= 0.0
    ensures 0.0 <= WaveCell(phys, w, 0.0, 0.0, p, k, gammaD, ws) <= w
  {
    var growth := ws.factorGrowth / k * (p * p * p * p) * 0.0;
    var gammaGal := ws.factorDamping * phys.pow15(k) * phys.sqrt(0.0);
    assert growth == 0.0 && gammaGal * 0.0 == 0.0;
    var qw := growth - gammaD * w + gammaGal * 0.0;
    assert gammaD * w >= 0.0;
    assert qw <= 0.0;
    assert ws.dt * qw <= 0.0;
    assert ws.dt * qw / ws.operators as real <= 0.0;
  }

  /** The intended damping rate is non-negative for a non-negative
      factor_damping, once x^1.5 and √x are non-negative on W_sg >= 0. */
  lemma DampingRateNonNegative(phys: Physics, k: real, w: real, ws: WaveStep)
    requires k > 0.0 && w >= 0.0 && ws.factorDamping >= 0.0
    requires NonNegativeOnNonNegative(phys.pow15) && NonNegativeOnNonNegative(phys.sqrt)
    ensures DampingRate(phys, k, w, ws) >= 0.0
  {
    var rate := if ws.doKolmogorov then phys.pow15(k) * phys.sqrt(w) else k * k * w;
    assert phys.pow15(k) >= 0.0 && phys.sqrt(w) >= 0.0;
    assert rate >= 0.0;
  }

  /** W_sg never increases under the wave update with the intended damping
      when df_dz = 0 and W_ISM = 0. */
  lemma WaveNoGrowth(phys: Physics, w: real, p: real, k: real, ws: WaveStep)
    requires k > 0.0 && ws.operators > 0 && w >= 0.0 && ws.dt >= 0.0 && ws.factorDamping >= 0.0
    requires NonNegativeOnNonNegative(phys.pow15) && NonNegativeOnNonNegative(phys.sqrt)
    ensures 0.0 <= WaveCell(phys, w, 0.0, 0.0, p, k, DampingRate(phys, k, w, ws), ws) <= w
  {
    DampingRateNonNegative(phys, k, w, ws);
    WaveCellNoGrowth(phys, w, p, k, DampingRate(phys, k, w, ws), ws);
  }

  /** The damping rate as written is non-negative on W_sg >= 0, whatever
      factor_damping is: both branches are. */
  lemma DampingRateAsWrittenNonNegative(phys: Physics, k: real, w: real, ws: WaveStep)
    requires k > 0.0 && w >= 0.0
    requires NonNegativeOnNonNegative(phys.pow15) && NonNegativeOnNonNegative(phys.sqrt)
    ensures DampingRateAsWritten(phys, k, w, ws) >= 0.0
  {
    assert phys.pow15(k) >= 0.0 && phys.sqrt(w) >= 0.0;
    assert k * k >= 0.0;
  }

  /** W_sg never increases under the wave update as the source computes it
      when df_dz = 0 and W_ISM = 0, and it stays non-negative. */
  lemma WaveNoGrowthAsWritten(phys: Physics, w: real, p: real, k: real, ws: WaveStep)
    requires k > 0.0 && ws.operators > 0 && w >= 0.0 && ws.dt >= 0.0
    requires NonNegativeOnNonNegative(phys.pow15) && NonNegativeOnNonNegative(phys.sqrt)
    ensures 0.0 <= WaveCell(phys, w, 0.0, 0.0, p, k, DampingRateAsWritten(phys, k, w, ws), ws) <= w
  {
    DampingRateAsWrittenNonNegative(phys, k, w, ws);
    WaveCellNoGrowth(phys, w, p, k, DampingRateAsWritten(phys, k, w, ws), ws);
  }

  /** Without a CR gradient and without background waves, one wave sweep
      raises no cell of a non-negative W_sg and makes none negative. */
  lemma WaveSweepNoGrowth(phys: Physics, w: seq<seq<real>>, wIsm: seq<seq<real>>, dfdz: seq<seq<real>>, p: seq<real>,
                          cols: nat, magneticField: real, ws: WaveStep)
    requires IsGrid(w, |p|, cols) && IsGrid(wIsm, |p|, cols) && IsGrid(dfdz, |p|, cols) && ws.operators > 0
    requires ZeroGrid(wIsm) && ZeroGrid(dfdz) && NonNegativeGrid(w) && ws.dt >= 0.0
    requires NonNegativeOnNonNegative(phys.pow15) && NonNegativeOnNonNegative(phys.sqrt)
    ensures var r := WaveSweep(phys, w, wIsm, dfdz, p, cols, magneticField, ws);
      forall ip, iz | 0 <= ip < |p| && 0 <= iz < cols :: 0.0 <= r[ip][iz] <= w[ip][iz]
  {
    var r := WaveSweep(phys, w, wIsm, dfdz, p, cols, magneticField, ws);
    forall ip, iz | 0 <= ip < |p| && 0 <= iz < cols
      ensures 0.0 <= r[ip][iz] <= w[ip][iz]
    {
      var k := Wavenumber(phys, p[ip], magneticField);
      WaveNoGrowthAsWritten(phys, w[ip][iz], p[ip], k, ws);
      assert wIsm[ip][iz] == 0.0 && dfdz[ip][iz] == 0.0;
    }
  }

  /** As written, the damping rate picks k^1.5·√W exactly when
      factor_damping·do_kolmogorov ≠ 0 and k²·W otherwise; where
      factor_damping ≠ 0 it is the intended rate divided by factor_damping. */
  lemma DampingAsWrittenDropsFactor(phys: Physics, k: real, w: real, ws: WaveStep)
    ensures ws.factorDamping * (if ws.doKolmogorov then 1.0 else 0.0) != 0.0
      ==> DampingRateAsWritten(phys, k, w, ws) == phys.pow15(k) * phys.sqrt(w)
    ensures ws.factorDamping * (if ws.doKolmogorov then 1.0 else 0.0) == 0.0
      ==> DampingRateAsWritten(phys, k, w, ws) == k * k * w
    ensures ws.factorDamping != 0.0
      ==> ws.factorDamping * DampingRateAsWritten(phys, k, w, ws) == DampingRate(phys, k, w, ws)
  {
  }

  /** The input that shows the precedence slip: with factor_damping = 0 and
      the Kolmogorov regime selected, the code damps at k²·W = 1 where the
      intended rate is 0. */
  lemma DampingAsWrittenCounterexample(phys: Physics)
    ensures var ws := WaveStep(1.0, 1, 0.0, 0.0, true);
      DampingRateAsWritten(phys, 1.0, 1.0, ws) == 1.0 && DampingRate(phys, 1.0, 1.0, ws) == 0.0
  {
  }
}
