/** The evolution engine of the CR and self-generated-wave model: the class
    Waves with its grids over momentum (rows) and height (columns), the
    operator-split solvers of src/evolutors.cpp, and the driver and
    diagnostics of evolve.cpp. Every solver is proved to write exactly the
    values the specification functions of Evolutors give, and the driver to
    follow the schedule of Schedule. */
module Engine {
  import opened Units
  import opened Grids
  import opened Tridiag
  import opened Evolutors
  import opened Diagnostics
  import opened Schedule

  /** The run parameters the engine reads. */
  datatype Params = Params(
    do3D: bool,
    doSelfGeneration: bool,
    doKolmogorov: bool,
    sourceTdecay: real,
    magneticField: real)

  /** The values of a grid, row by row. */
  function GridOf(a: array2<real>): (g: seq<seq<real>>)
    reads a
    ensures IsGrid(g, a.Length0, a.Length1)
    ensures forall i, j | 0 <= i < a.Length0 && 0 <= j < a.Length1 :: g[i][j] == a[i, j]
  {
    seq(a.Length0, i requires 0 <= i < a.Length0 reads a =>
      seq(a.Length1, j requires 0 <= j < a.Length1 reads a => a[i, j]))
  }

  /** Momentum row ip of a grid: the values over height. */
  function Row(a: array2<real>, ip: nat): (r: seq<real>)
    requires ip < a.Length0
    reads a
    ensures |r| == a.Length1 && forall j | 0 <= j < a.Length1 :: r[j] == a[ip, j]
  {
    seq(a.Length1, j requires 0 <= j < a.Length1 reads a => a[ip, j])
  }

  /** Height column iz of a grid: the values over momentum. */
  function ColumnOf(a: array2<real>, iz: nat): (c: seq<real>)
    requires iz < a.Length1
    reads a
    ensures |c| == a.Length0 && forall i | 0 <= i < a.Length0 :: c[i] == a[i, iz]
  {
    seq(a.Length0, i requires 0 <= i < a.Length0 reads a => a[i, iz])
  }

  /** Two grids of one shape with the same cells are equal. */
  lemma GridExtensional(a: array2<real>, g: seq<seq<real>>)
    requires IsGrid(g, a.Length0, a.Length1)
    requires forall i, j | 0 <= i < a.Length0 && 0 <= j < a.Length1 :: a[i, j] == g[i][j]
    ensures GridOf(a) == g
  {
    var h := GridOf(a);
    forall i | 0 <= i < a.Length0
      ensures h[i] == g[i]
    {
      assert |h[i]| == |g[i]|;
    }
  }

  /** Row ip of an array is row ip of its grid of values. */
  lemma RowOfGrid(a: array2<real>, ip: nat)
    requires ip < a.Length0
    ensures Row(a, ip) == GridOf(a)[ip]
  {
    assert |GridOf(a)[ip]| == a.Length1;
  }

  /** Column iz of an array is column iz of its grid of values. */
  lemma ColumnOfGrid(a: array2<real>, iz: nat)
    requires iz < a.Length1
    ensures ColumnOf(a, iz) == Column(GridOf(a), a.Length1, iz)
  {
  }

  /** A fresh grid holding g. */
  method NewGrid(g: seq<seq<real>>, rows: nat, cols: nat) returns (a: array2<real>)
    requires IsGrid(g, rows, cols)
    ensures fresh(a) && a.Length0 == rows && a.Length1 == cols
    ensures GridOf(a) == g
  {
    a := new real[rows, cols]((i, j) => if 0 <= i < |g| && 0 <= j < |g[i]| then g[i][j] else 0.0);
    GridExtensional(a, g);
  }

  /** The first k rows of the arrays of a tridiagonal system hold those of
      the system (cs, us, ls, rs): diagonal and right-hand side at rows
      below k, the super-diagonal where it exists, the sub-diagonal below
      k - 1. */
  ghost predicate AssembledUpTo(k: nat, central: array<real>, upper: array<real>, lower: array<real>, rhs: array<real>,
                                cs: seq<real>, us: seq<real>, ls: seq<real>, rs: seq<real>)
    reads central, upper, lower, rhs
  {
    |us| == |cs| - 1 && |ls| == |cs| - 1 && |rs| == |cs| && k <= |cs| &&
    central.Length == |cs| && upper.Length == |us| && lower.Length == |ls| && rhs.Length == |rs| &&
    (forall i | 0 <= i < k :: central[i] == cs[i] && rhs[i] == rs[i]) &&
    (forall i | 0 <= i < k && i < |us| :: upper[i] == us[i]) &&
    (forall j | 0 <= j < k - 1 :: lower[j] == ls[j])
  }

  /** A fully assembled system holds exactly (cs, us, ls, rs). */
  lemma AssembledAll(central: array<real>, upper: array<real>, lower: array<real>, rhs: array<real>,
                     cs: seq<real>, us: seq<real>, ls: seq<real>, rs: seq<real>)
    requires |us| == |cs| - 1 && |ls| == |cs| - 1 && |rs| == |cs|
    requires AssembledUpTo(|cs|, central, upper, lower, rhs, cs, us, ls, rs)
    ensures central[..] == cs && upper[..] == us && lower[..] == ls && rhs[..] == rs
  {
  }

  /** Stores the entries of system row i: the diagonal and right-hand side
      always, the super-diagonal unless i is the last row, the sub-diagonal
      (at i - 1) unless i is the first row. */
  method StoreNode(i: nat, c: real, u: real, l: real, r: real, hasUpper: bool, hasLower: bool,
                   central: array<real>, upper: array<real>, lower: array<real>, rhs: array<real>,
                   ghost cs: seq<real>, ghost us: seq<real>, ghost ls: seq<real>, ghost rs: seq<real>)
    requires |us| == |cs| - 1 && |ls| == |cs| - 1 && |rs| == |cs| && i < |cs|
    requires AssembledUpTo(i, central, upper, lower, rhs, cs, us, ls, rs)
    requires (hasUpper <==> i < |us|) && (hasLower <==> i > 0)
    requires c == cs[i] && r == rs[i]
    requires hasUpper ==> u == us[i]
    requires hasLower ==> l == ls[i - 1]
    requires upper != lower && central != upper && central != lower && rhs != upper && rhs != lower && rhs != central
    modifies central, upper, lower, rhs
    ensures AssembledUpTo(i + 1, central, upper, lower, rhs, cs, us, ls, rs)
  {
    central[i] := c;
    if hasUpper {
      upper[i] := u;
    }
    if hasLower {
      lower[i - 1] := l;
    }
    rhs[i] := r;
  }

  /** Overwrites every cell of a with the grid g. */
  method ReplaceField(a: array2<real>, g: seq<seq<real>>)
    requires IsGrid(g, a.Length0, a.Length1)
    modifies a
    ensures GridOf(a) == g
  {
    forall i, j | 0 <= i < a.Length0 && 0 <= j < a.Length1 {
      a[i, j] := g[i][j];
    }
    GridExtensional(a, g);
  }

  /** The four fields the driver loop changes, as values. */
  datatype Fields = Fields(f: seq<seq<real>>, w: seq<seq<real>>, dfdz: seq<seq<real>>, dzz: seq<seq<real>>)

  /** What the loop of evolve holds fixed: the geometry, the run switches,
      the helpers, the source and ISM-wave grids, the step and the
      constants of evolve_waves(1). */
  datatype LoopSetup = LoopSetup(
    do3D: bool, selfGeneration: bool, phys: Physics, solve: Solver,
    p: seq<real>, z: seq<real>, dz: real, q: seq<seq<real>>, wIsm: seq<seq<real>>,
    magneticField: real, sourceTdecay: real, dt: real, dtHalf: real, waves: WaveStep)

  /** A setup the wave update accepts. */
  ghost predicate WavesOk(c: LoopSetup)
  {
    |c.p| >= 1 && c.waves.operators > 0 && IsGrid(c.wIsm, |c.p|, |c.z|)
  }

  /** A setup both the height solve and the wave update accept. */
  ghost predicate SetupOk(c: LoopSetup)
  {
    WavesOk(c) && |c.z| >= 3 && c.dz != 0.0 && IsGrid(c.q, |c.p|, |c.z|)
  }

  /** All four fields have one value per (p, z) pair. */
  ghost predicate Shaped(c: LoopSetup, s: Fields)
  {
    IsGrid(s.f, |c.p|, |c.z|) && IsGrid(s.w, |c.p|, |c.z|) && IsGrid(s.dfdz, |c.p|, |c.z|) && IsGrid(s.dzz, |c.p|, |c.z|)
  }

  /** The constants of evolve_f_in_z(1, counter·dt). */
  function HeightStep(c: LoopSetup, counter: nat): StepParams
  {
    StepParams(c.dt, c.dtHalf, c.phys.sourceEvolution(StepTime(counter, c.dt), c.sourceTdecay), 1)
  }

  /** What the height solve of step `counter` leaves: f_cr advanced by
      evolve_f_in_z(1, counter·dt) with the current D_zz; the rest as it was. */
  ghost function AfterHeightSolve(c: LoopSetup, s: Fields, counter: nat): (r: Fields)
    requires SetupOk(c) && Shaped(c, s)
    ensures Shaped(c, r) && r.w == s.w && r.dfdz == s.dfdz && r.dzz == s.dzz
  {
    s.(f := HeightSweep(c.do3D, s.f, s.dzz, c.q, c.z, c.dz, HeightStep(c, counter), c.solve))
  }

  /** What the feedback of step `counter` leaves: after the warm-up and with
      self-generation on, df_dz from f_cr, W_sg advanced by evolve_waves(1)
      with that gradient, and D_zz from the new W_sg; on every other step
      the fields as they were. */
  ghost function AfterFeedback(c: LoopSetup, s: Fields, counter: nat,
                               gradient: seq<seq<real>> -> seq<seq<real>>, diffusion: seq<seq<real>> -> seq<seq<real>>): (r: Fields)
    requires WavesOk(c) && Shaped(c, s)
    requires KeepsShape(gradient, |c.p|, |c.z|) && KeepsShape(diffusion, |c.p|, |c.z|)
    ensures Shaped(c, r) && r.f == s.f
  {
    if FeedbackActive(counter, c.selfGeneration) then
      var g := gradient(s.f);
      var w := WaveSweep(c.phys, s.w, c.wIsm, g, c.p, |c.z|, c.magneticField, c.waves);
      Fields(s.f, w, g, diffusion(w))
    else s
  }

  /** The fields after steps 1 .. n of the loop of evolve, from `s`. */
  ghost function RunFields(c: LoopSetup, s: Fields, n: nat,
                           gradient: seq<seq<real>> -> seq<seq<real>>, diffusion: seq<seq<real>> -> seq<seq<real>>): (r: Fields)
    requires SetupOk(c) && Shaped(c, s)
    requires KeepsShape(gradient, |c.p|, |c.z|) && KeepsShape(diffusion, |c.p|, |c.z|)
    ensures Shaped(c, r)
    decreases n, 2
  {
    if n == 0 then s else Pass(c, s, n, gradient, diffusion)
  }

  /** The fields after step n: its feedback applied to what its height
      solve left. */
  ghost function Pass(c: LoopSetup, s: Fields, n: nat,
                      gradient: seq<seq<real>> -> seq<seq<real>>, diffusion: seq<seq<real>> -> seq<seq<real>>): (r: Fields)
    requires SetupOk(c) && Shaped(c, s) && n >= 1
    requires KeepsShape(gradient, |c.p|, |c.z|) && KeepsShape(diffusion, |c.p|, |c.z|)
    ensures Shaped(c, r)
    decreases n, 1
  {
    AfterFeedback(c, HeightPass(c, s, n, gradient, diffusion), n, gradient, diffusion)
  }

  /** The fields after the height solve of step n, applied to what steps
      1 .. n-1 left. */
  ghost function HeightPass(c: LoopSetup, s: Fields, n: nat,
                            gradient: seq<seq<real>> -> seq<seq<real>>, diffusion: seq<seq<real>> -> seq<seq<real>>): (r: Fields)
    requires SetupOk(c) && Shaped(c, s) && n >= 1
    requires KeepsShape(gradient, |c.p|, |c.z|) && KeepsShape(diffusion, |c.p|, |c.z|)
    ensures Shaped(c, r)
    decreases n, 0
  {
    AfterHeightSolve(c, RunFields(c, s, n - 1, gradient, diffusion), n)
  }

  /** During the warm-up, or with self-generation off, the loop never
      touches W_sg, df_dz or D_zz. */
  lemma {:induction false} RunFieldsWarmUp(c: LoopSetup, s: Fields, n: nat,
                                           gradient: seq<seq<real>> -> seq<seq<real>>, diffusion: seq<seq<real>> -> seq<seq<real>>)
    requires SetupOk(c) && Shaped(c, s)
    requires KeepsShape(gradient, |c.p|, |c.z|) && KeepsShape(diffusion, |c.p|, |c.z|)
    requires n <= WarmUpSteps || !c.selfGeneration
    ensures var r := RunFields(c, s, n, gradient, diffusion);
      r.w == s.w && r.dfdz == s.dfdz && r.dzz == s.dzz
  {
    if n > 0 {
      RunFieldsWarmUp(c, s, n - 1, gradient, diffusion);
      assert RunFields(c, s, n, gradient, diffusion) == HeightPass(c, s, n, gradient, diffusion);
    }
  }

  /** The loop never writes the top momentum bin of f_cr. */
  lemma {:induction false} RunFieldsTopRow(c: LoopSetup, s: Fields, n: nat,
                                           gradient: seq<seq<real>> -> seq<seq<real>>, diffusion: seq<seq<real>> -> seq<seq<real>>)
    requires SetupOk(c) && Shaped(c, s)
    requires KeepsShape(gradient, |c.p|, |c.z|) && KeepsShape(diffusion, |c.p|, |c.z|)
    ensures RunFields(c, s, n, gradient, diffusion).f[|c.p| - 1] == s.f[|c.p| - 1]
  {
    if n > 0 {
      RunFieldsTopRow(c, s, n - 1, gradient, diffusion);
      assert RunFields(c, s, n, gradient, diffusion).f == HeightPass(c, s, n, gradient, diffusion).f;
    }
  }

  /** A non-negative f_cr and non-negative waves stay non-negative over the
      whole loop, for any solver, gradient and diffusion model. */
  lemma {:induction false} RunFieldsNonNegative(c: LoopSetup, s: Fields, n: nat,
                                                gradient: seq<seq<real>> -> seq<seq<real>>, diffusion: seq<seq<real>> -> seq<seq<real>>)
    requires SetupOk(c) && Shaped(c, s)
    requires KeepsShape(gradient, |c.p|, |c.z|) && KeepsShape(diffusion, |c.p|, |c.z|)
    ensures NonNegativeGrid(s.f) ==> NonNegativeGrid(RunFields(c, s, n, gradient, diffusion).f)
    ensures NonNegativeGrid(s.w) ==> NonNegativeGrid(RunFields(c, s, n, gradient, diffusion).w)
  {
    if n > 0 {
      var prev := RunFields(c, s, n - 1, gradient, diffusion);
      var mid := HeightPass(c, s, n, gradient, diffusion);
      RunFieldsNonNegative(c, s, n - 1, gradient, diffusion);
      assert mid == AfterHeightSolve(c, prev, n);
      assert RunFields(c, s, n, gradient, diffusion) == AfterFeedback(c, mid, n, gradient, diffusion);
      if NonNegativeGrid(prev.f) {
        HeightSweepNonNegative(c.do3D, prev.f, prev.dzz, c.q, c.z, c.dz, HeightStep(c, n), c.solve);
      }
    }
  }

  class Waves {
    const par: Params
    const phys: Physics
    /** The tridiagonal solve every implicit step calls. */
    const solveTridiag: Solver
    /** The momentum and height axes and their sizes and spacings. */
    const p: seq<real>
    const z: seq<real>
    const pSize: nat
    const zSize: nat
    const dz: real
    const dlnp: real
    const factorDamping: real
    const factorGrowth: real
    /** Fields over (momentum, height). */
    const qCr: array2<real>
    const wIsm: array2<real>
    const wSg: array2<real>
    const fCr: array2<real>
    const dfDz: array2<real>
    const dZz: array2<real>
    /** The momentum loss rate dp/dt, one value per momentum. */
    const dpDt: array<real>
    var dt: real
    var dtHalf: real

    ghost predicate Valid()
      reads this
    {
      pSize == |p| && pSize >= 1 && zSize == |z| && zSize >= 1 &&
      qCr.Length0 == pSize && qCr.Length1 == zSize &&
      wIsm.Length0 == pSize && wIsm.Length1 == zSize &&
      wSg.Length0 == pSize && wSg.Length1 == zSize &&
      fCr.Length0 == pSize && fCr.Length1 == zSize &&
      dfDz.Length0 == pSize && dfDz.Length1 == zSize &&
      dZz.Length0 == pSize && dZz.Length1 == zSize &&
      dpDt.Length == pSize &&
      fCr != qCr && fCr != wIsm && fCr != wSg && fCr != dfDz && fCr != dZz &&
      wSg != qCr && wSg != wIsm && wSg != dfDz && wSg != dZz &&
      dfDz != qCr && dfDz != wIsm && dfDz != dZz &&
      dZz != qCr && dZz != wIsm &&
      dtHalf == 0.5 * dt
    }

    /** The engine over the given axes and initial fields, with dt = 0. */
    constructor (par: Params, phys: Physics, solveTridiag: Solver,
                 p: seq<real>, z: seq<real>, dz: real, dlnp: real,
                 factorDamping: real, factorGrowth: real,
                 q0: seq<seq<real>>, wIsm0: seq<seq<real>>, wSg0: seq<seq<real>>,
                 f0: seq<seq<real>>, dfDz0: seq<seq<real>>, dZz0: seq<seq<real>>, dpDt0: seq<real>)
      requires |p| >= 1 && |z| >= 1 && |dpDt0| == |p|
      requires IsGrid(q0, |p|, |z|) && IsGrid(wIsm0, |p|, |z|) && IsGrid(wSg0, |p|, |z|)
      requires IsGrid(f0, |p|, |z|) && IsGrid(dfDz0, |p|, |z|) && IsGrid(dZz0, |p|, |z|)
      ensures Valid() && dt == 0.0
      ensures this.par == par && this.phys == phys && this.solveTridiag == solveTridiag
      ensures this.p == p && this.z == z && this.dz == dz && this.dlnp == dlnp
      ensures this.factorDamping == factorDamping && this.factorGrowth == factorGrowth
      ensures GridOf(qCr) == q0 && GridOf(wIsm) == wIsm0 && GridOf(wSg) == wSg0
      ensures GridOf(fCr) == f0 && GridOf(dfDz) == dfDz0 && GridOf(dZz) == dZz0 && dpDt[..] == dpDt0
    {
      this.par, this.phys, this.solveTridiag := par, phys, solveTridiag;
      this.p, this.z, this.pSize, this.zSize := p, z, |p|, |z|;
      this.dz, this.dlnp := dz, dlnp;
      this.factorDamping, this.factorGrowth := factorDamping, factorGrowth;
      var q := NewGrid(q0, |p|, |z|);
      var wi := NewGrid(wIsm0, |p|, |z|);
      var ws := NewGrid(wSg0, |p|, |z|);
      var f := NewGrid(f0, |p|, |z|);
      var g := NewGrid(dfDz0, |p|, |z|);
      var d := NewGrid(dZz0, |p|, |z|);
      qCr, wIsm, wSg, fCr, dfDz, dZz := q, wi, ws, f, g, d;
      dpDt := new real[|p|](i => if 0 <= i < |dpDt0| then dpDt0[i] else 0.0);
      dt, dtHalf := 0.0, 0.0;
    }

    /** set_dt: the step and its half. */
    method SetDt(newDt: real)
      requires Valid()
      modifies this
      ensures Valid() && dt == newDt && dtHalf == 0.5 * newDt
    {
      dt := newDt;
      dtHalf := 0.5 * newDt;
    }

    /** What one solver call fixes for all slices. */
    function Step(operators: nat, tNow: real): StepParams
      reads this
    {
      StepParams(dt, dtHalf, phys.sourceEvolution(tNow, par.sourceTdecay), operators)
    }

    // -------------------------------------------------------------------------
    // evolve_f_in_z: the planar (1D) geometry

    /** U, C, L of the planar stencil at node (ip, iz). */
    method HeightCoefficients(ip: nat, iz: nat) returns (uz: real, cz: real, lz: real)
      requires Valid() && ip < pSize && iz < zSize && dz != 0.0
      ensures Stencil(uz, cz, lz) == HeightStencil(Row(dZz, ip), iz, dz)
    {
      var dzz := dZz[ip, iz];
      var dzzUp := if iz < zSize - 1 then dZz[ip, iz + 1] else dzz;
      var dzzDown := if iz > 0 then dZz[ip, iz - 1] else dzz;
      var dzzOverDz2 := dzz / (dz * dz);
      var gradientTerm := (dzzUp - dzzDown) / 4.0 / (dz * dz);
      uz := dzzOverDz2 + gradientTerm;
      cz := 2.0 * dzzOverDz2;
      lz := dzzOverDz2 - gradientTerm;
    }

    /** Diagonal, super- and sub-diagonal entries of the planar system at
        node iz: 1 + dt_half·C and −dt_half·U, −dt_half·L. */
    method SlabNodeCoefficients(ip: nat, iz: nat, operators: nat, tNow: real) returns (c: real, u: real, l: real)
      requires Valid() && ip < pSize && 1 <= iz <= zSize - 2 && dz != 0.0
      ensures c == SlabCentral(Row(dZz, ip), dz, Step(operators, tNow), iz - 1)
      ensures u == SlabUpper(Row(dZz, ip), dz, Step(operators, tNow), iz - 1)
      ensures iz >= 2 ==> l == SlabLower(Row(dZz, ip), dz, Step(operators, tNow), iz - 2)
    {
      var uz, cz, lz := HeightCoefficients(ip, iz);
      c := 1.0 + dtHalf * cz;
      u := -dtHalf * uz;
      l := -dtHalf * lz;
    }

    /** Row iz - 1 of the planar right-hand side, from the coefficients c, u
        and l already stored for node iz. */
    method SlabRhs(ip: nat, iz: nat, c: real, u: real, l: real, operators: nat, tNow: real,
                   ghost cs: seq<real>, ghost us: seq<real>, ghost ls: seq<real>) returns (r: real)
      requires Valid() && ip < pSize && 1 <= iz <= zSize - 2 && operators > 0
      requires |cs| == zSize - 2 && |us| == |cs| - 1 && |ls| == |cs| - 1
      requires c == cs[iz - 1]
      requires iz != zSize - 2 ==> u == us[iz - 1]
      requires iz != 1 ==> l == ls[iz - 2]
      ensures r == RhsEntry(Row(fCr, ip), Row(qCr, ip), Step(operators, tNow), 1, cs, us, ls, iz - 1)
    {
      r := fCr[ip, iz] * (2.0 - c);
      if iz != zSize - 2 {
        r := r - fCr[ip, iz + 1] * u;
      }
      if iz != 1 {
        r := r - fCr[ip, iz - 1] * l;
      }
      var source := qCr[ip, iz] * phys.sourceEvolution(tNow, par.sourceTdecay);
      r := r + dt * source / operators as real;
      ghost var fUp := if iz != zSize - 2 then fCr[ip, iz + 1] else 0.0;
      ghost var fDown := if iz != 1 then fCr[ip, iz - 1] else 0.0;
      ghost var sp := Step(operators, tNow);
      assert (if iz != zSize - 2 then fUp * u else 0.0) == (if iz - 1 + 1 < |cs| then fUp * us[iz - 1] else 0.0);
      assert (if iz != 1 then fDown * l else 0.0) == (if iz - 1 > 0 then fDown * ls[iz - 1 - 1] else 0.0);
      assert fCr[ip, iz] * (2.0 - c) == fCr[ip, iz] * (2.0 - cs[iz - 1]);
      ghost var f, q, fMid, qMid := Row(fCr, ip), Row(qCr, ip), fCr[ip, iz], qCr[ip, iz];
      assert Injection(qMid, sp) == dt * source / operators as real by {
        assert sp == StepParams(dt, dtHalf, phys.sourceEvolution(tNow, par.sourceTdecay), operators);
      }
      RhsEntryFromValues(f, q, sp, 1, cs, us, ls, iz - 1, fMid, fUp, fDown, qMid);
    }

    /** One pass of the assembly loop of evolve_f_in_z_1D: the entries of
        node iz stored in row iz - 1 of the system arrays. */
    method AssembleSlabNode(ip: nat, iz: nat, operators: nat, tNow: real,
                            central: array<real>, upper: array<real>, lower: array<real>, rhs: array<real>,
                            ghost f: seq<real>, ghost d: seq<real>, ghost q: seq<real>, ghost sp: StepParams,
                            ghost cs: seq<real>, ghost us: seq<real>, ghost ls: seq<real>, ghost rs: seq<real>)
      requires Valid() && ip < pSize && 1 <= iz <= zSize - 2 && dz != 0.0 && operators > 0
      requires Row(dZz, ip) == d && Row(fCr, ip) == f && Row(qCr, ip) == q && Step(operators, tNow) == sp
      requires |cs| == zSize - 2 && |us| == |cs| - 1 && |ls| == |cs| - 1 && |rs| == |cs|
      requires forall i {:trigger SlabCentral(d, dz, sp, i)} | 0 <= i < |cs| :: cs[i] == SlabCentral(d, dz, sp, i)
      requires forall i {:trigger SlabUpper(d, dz, sp, i)} | 0 <= i < |us| :: us[i] == SlabUpper(d, dz, sp, i)
      requires forall j {:trigger SlabLower(d, dz, sp, j)} | 0 <= j < |ls| :: ls[j] == SlabLower(d, dz, sp, j)
      requires forall i {:trigger RhsEntry(f, q, sp, 1, cs, us, ls, i)} | 0 <= i < |cs| :: rs[i] == RhsEntry(f, q, sp, 1, cs, us, ls, i)
      requires AssembledUpTo(iz - 1, central, upper, lower, rhs, cs, us, ls, rs)
      requires upper != lower && central != upper && central != lower && rhs != upper && rhs != lower && rhs != central
      modifies central, upper, lower, rhs
      ensures AssembledUpTo(iz, central, upper, lower, rhs, cs, us, ls, rs)
    {
      var c, u, l := SlabNodeCoefficients(ip, iz, operators, tNow);
      var r := SlabRhs(ip, iz, c, u, l, operators, tNow, cs, us, ls);
      StoreNode(iz - 1, c, u, l, r, iz != zSize - 2, iz != 1, central, upper, lower, rhs, cs, us, ls, rs);
    }

    /** The planar system of momentum row ip, assembled node by node for
        iz = 1 .. z_size-2. */
    method AssembleSlab(ip: nat, operators: nat, tNow: real) returns (s: System)
      requires Valid() && ip < pSize && zSize >= 3 && dz != 0.0 && operators > 0
      ensures s == SlabSystem(Row(fCr, ip), Row(dZz, ip), Row(qCr, ip), dz, Step(operators, tNow))
    {
      ghost var f, d, q := Row(fCr, ip), Row(dZz, ip), Row(qCr, ip);
      ghost var sp := Step(operators, tNow);
      var n := zSize - 2;
      ghost var cs, us, ls := SlabCoefficients(d, dz, sp);
      ghost var rs := RhsEntries(f, q, sp, 1, cs, us, ls);
      var rhs := new real[n];
      var central := new real[n];
      var upper := new real[n - 1];
      var lower := new real[n - 1];
      var iz := 1;
      while iz < zSize - 1
        invariant 1 <= iz <= zSize - 1
        invariant Row(dZz, ip) == d && Row(fCr, ip) == f && Row(qCr, ip) == q && Step(operators, tNow) == sp
        invariant AssembledUpTo(iz - 1, central, upper, lower, rhs, cs, us, ls, rs)
      {
        AssembleSlabNode(ip, iz, operators, tNow, central, upper, lower, rhs, f, d, q, sp, cs, us, ls, rs);
        iz := iz + 1;
      }
      AssembledAll(central, upper, lower, rhs, cs, us, ls, rs);
      SlabFromEntries(f, d, q, dz, sp, central[..], upper[..], lower[..], rhs[..]);
      s := System(central[..], upper[..], lower[..], rhs[..]);
    }

    /** One momentum row of evolve_f_in_z_1D: assemble, solve, write back. */
    method EvolveSlabRow(ip: nat, operators: nat, tNow: real)
      requires Valid() && ip < pSize && zSize >= 3 && dz != 0.0 && operators > 0
      modifies fCr
      ensures Row(fCr, ip) == SlabUpdate(old(Row(fCr, ip)), Row(dZz, ip), Row(qCr, ip), dz, Step(operators, tNow), solveTridiag)
      ensures forall i, j | 0 <= i < pSize && 0 <= j < zSize && i != ip :: fCr[i, j] == old(fCr[i, j])
    {
      var s := AssembleSlab(ip, operators, tNow);
      var x := solveTridiag(s.central, s.upper, s.lower, s.rhs);
      WriteMirrorAverage(ip, x);
    }

    /** The write-back loop of evolve_f_in_z_1D for momentum row ip. */
    method WriteMirrorAverage(ip: nat, x: seq<real>)
      requires Valid() && ip < pSize && zSize >= 3 && |x| == zSize - 2
      modifies fCr
      ensures Row(fCr, ip) == MirrorAverage(old(Row(fCr, ip)), x)
      ensures forall i, j | 0 <= i < pSize && 0 <= j < zSize && i != ip :: fCr[i, j] == old(fCr[i, j])
    {
      ghost var f0 := Row(fCr, ip);
      ghost var upd := MirrorAverage(f0, x);
      var iz := 1;
      while iz < zSize - 1
        invariant 1 <= iz <= zSize - 1
        invariant forall j | 0 <= j < zSize :: fCr[ip, j] == if 1 <= j < iz then upd[j] else f0[j]
        invariant forall i, j | 0 <= i < pSize && 0 <= j < zSize && i != ip :: fCr[i, j] == old(fCr[i, j])
      {
        fCr[ip, iz] := Max(0.5 * (x[iz - 1] + x[zSize - 2 - iz]), 0.0);
        iz := iz + 1;
      }
      assert Row(fCr, ip) == upd;
    }

    /** evolve_f_in_z_1D: every momentum row but the last is advanced by the
        planar solve. */
    method EvolveFInZ1D(operators: nat, tNow: real)
      requires Valid() && zSize >= 3 && dz != 0.0 && operators > 0
      modifies fCr
      ensures GridOf(fCr) == SlabSweep(old(GridOf(fCr)), GridOf(dZz), GridOf(qCr), zSize, dz, Step(operators, tNow), solveTridiag)
    {
      ghost var g0 := GridOf(fCr);
      ghost var target := SlabSweep(g0, GridOf(dZz), GridOf(qCr), zSize, dz, Step(operators, tNow), solveTridiag);
      var ip := 0;
      while ip < pSize - 1
        invariant 0 <= ip <= pSize - 1
        invariant forall i, j | 0 <= i < pSize && 0 <= j < zSize :: fCr[i, j] == if i < ip then target[i][j] else g0[i][j]
      {
        RowOfGrid(dZz, ip);
        RowOfGrid(qCr, ip);
        assert Row(fCr, ip) == g0[ip];
        EvolveSlabRow(ip, operators, tNow);
        ip := ip + 1;
      }
      GridExtensional(fCr, target);
    }

    // -------------------------------------------------------------------------
    // evolve_f_in_z: the spherical (3D) geometry

    /** U, C, L of the spherical stencil at node (ip, iz). */
    method SphericalHeightCoefficients(ip: nat, iz: nat) returns (uz: real, cz: real, lz: real)
      requires Valid() && ip < pSize && iz < zSize && dz != 0.0
      ensures Stencil(uz, cz, lz) == SphericalStencil(Row(dZz, ip), z, iz, dz)
    {
      var dzz := dZz[ip, iz];
      var dzzUp := if iz < zSize - 1 then dZz[ip, iz + 1] else dzz;
      var dzzDown := if iz > 0 then dZz[ip, iz - 1] else dzz;
      var dzzOverDz2 := dzz / (dz * dz);
      var gradientTerm := (dzzUp - dzzDown) / 4.0 / (dz * dz);
      var r := Max(Abs(z[iz]), 0.01 * Parsec);
      var geometric := dzz / dz / r;
      uz := dzzOverDz2 + gradientTerm + geometric;
      cz := 2.0 * dzzOverDz2;
      lz := dzzOverDz2 - gradientTerm - geometric;
    }

    /** Diagonal, super- and sub-diagonal entries of the spherical system at
        node iz; at the origin the lower coefficient is added to the upper. */
    method SphericalNodeCoefficients(ip: nat, iz: nat, operators: nat, tNow: real) returns (c: real, u: real, l: real)
      requires Valid() && ip < pSize && iz <= zSize - 2 && dz != 0.0
      ensures c == SphericalCentral(Row(dZz, ip), z, dz, Step(operators, tNow), iz)
      ensures u == SphericalUpper(Row(dZz, ip), z, dz, Step(operators, tNow), iz)
      ensures iz >= 1 ==> l == SphericalLower(Row(dZz, ip), z, dz, Step(operators, tNow), iz - 1)
    {
      var uz, cz, lz := SphericalHeightCoefficients(ip, iz);
      c := 1.0 + dtHalf * cz;
      u := -dtHalf * uz;
      if iz == 0 {
        u := u + -dtHalf * lz;
      }
      l := -dtHalf * lz;
    }

    /** Row iz of the spherical right-hand side, from the coefficients c, u
        and l already stored for node iz. */
    method SphericalRhs(ip: nat, iz: nat, c: real, u: real, l: real, operators: nat, tNow: real,
                        ghost cs: seq<real>, ghost us: seq<real>, ghost ls: seq<real>) returns (r: real)
      requires Valid() && ip < pSize && iz <= zSize - 2 && operators > 0
      requires |cs| == zSize - 1 && |us| == |cs| - 1 && |ls| == |cs| - 1
      requires c == cs[iz]
      requires iz != zSize - 2 ==> u == us[iz]
      requires iz != 0 ==> l == ls[iz - 1]
      ensures r == RhsEntry(Row(fCr, ip), Row(qCr, ip), Step(operators, tNow), 0, cs, us, ls, iz)
    {
      r := fCr[ip, iz] * (2.0 - c);
      if iz != zSize - 2 {
        r := r - fCr[ip, iz + 1] * u;
      }
      if iz != 0 {
        r := r - fCr[ip, iz - 1] * l;
      }
      var source := qCr[ip, iz] * phys.sourceEvolution(tNow, par.sourceTdecay);
      r := r + dt * source / operators as real;
      ghost var fUp := if iz != zSize - 2 then fCr[ip, iz + 1] else 0.0;
      ghost var fDown := if iz != 0 then fCr[ip, iz - 1] else 0.0;
      ghost var sp := Step(operators, tNow);
      assert (if iz != zSize - 2 then fUp * u else 0.0) == (if iz + 1 < |cs| then fUp * us[iz] else 0.0);
      assert (if iz != 0 then fDown * l else 0.0) == (if iz > 0 then fDown * ls[iz - 1] else 0.0);
      assert fCr[ip, iz] * (2.0 - c) == fCr[ip, iz] * (2.0 - cs[iz]);
      ghost var f, q, fMid, qMid := Row(fCr, ip), Row(qCr, ip), fCr[ip, iz], qCr[ip, iz];
      assert Injection(qMid, sp) == dt * source / operators as real by {
        assert sp == StepParams(dt, dtHalf, phys.sourceEvolution(tNow, par.sourceTdecay), operators);
      }
      RhsEntryFromValues(f, q, sp, 0, cs, us, ls, iz, fMid, fUp, fDown, qMid);
    }

    /** One pass of the assembly loop of evolve_f_in_z_3D: the entries of
        node iz stored in row iz of the system arrays. */
    method AssembleSphericalNode(ip: nat, iz: nat, operators: nat, tNow: real,
                                 central: array<real>, upper: array<real>, lower: array<real>, rhs: array<real>,
                                 ghost f: seq<real>, ghost d: seq<real>, ghost q: seq<real>, ghost sp: StepParams,
                                 ghost cs: seq<real>, ghost us: seq<real>, ghost ls: seq<real>, ghost rs: seq<real>)
      requires Valid() && ip < pSize && iz <= zSize - 2 && dz != 0.0 && operators > 0
      requires Row(dZz, ip) == d && Row(fCr, ip) == f && Row(qCr, ip) == q && Step(operators, tNow) == sp
      requires |cs| == zSize - 1 && |us| == |cs| - 1 && |ls| == |cs| - 1 && |rs| == |cs|
      requires forall i {:trigger SphericalCentral(d, z, dz, sp, i)} | 0 <= i < |cs| :: cs[i] == SphericalCentral(d, z, dz, sp, i)
      requires forall i {:trigger SphericalUpper(d, z, dz, sp, i)} | 0 <= i < |us| :: us[i] == SphericalUpper(d, z, dz, sp, i)
      requires forall j {:trigger SphericalLower(d, z, dz, sp, j)} | 0 <= j < |ls| :: ls[j] == SphericalLower(d, z, dz, sp, j)
      requires forall i {:trigger RhsEntry(f, q, sp, 0, cs, us, ls, i)} | 0 <= i < |cs| :: rs[i] == RhsEntry(f, q, sp, 0, cs, us, ls, i)
      requires AssembledUpTo(iz, central, upper, lower, rhs, cs, us, ls, rs)
      requires upper != lower && central != upper && central != lower && rhs != upper && rhs != lower && rhs != central
      modifies central, upper, lower, rhs
      ensures AssembledUpTo(iz + 1, central, upper, lower, rhs, cs, us, ls, rs)
    {
      var c, u, l := SphericalNodeCoefficients(ip, iz, operators, tNow);
      var r := SphericalRhs(ip, iz, c, u, l, operators, tNow, cs, us, ls);
      StoreNode(iz, c, u, l, r, iz != zSize - 2, iz != 0, central, upper, lower, rhs, cs, us, ls, rs);
    }

    /** The spherical system of momentum row ip, assembled node by node for
        iz = 0 .. z_size-2. */
    method AssembleSpherical(ip: nat, operators: nat, tNow: real) returns (s: System)
      requires Valid() && ip < pSize && zSize >= 3 && dz != 0.0 && operators > 0
      ensures s == SphericalSystem(Row(fCr, ip), Row(dZz, ip), Row(qCr, ip), z, dz, Step(operators, tNow))
    {
      ghost var f, d, q := Row(fCr, ip), Row(dZz, ip), Row(qCr, ip);
      ghost var sp := Step(operators, tNow);
      var n := zSize - 1;
      ghost var cs, us, ls := SphericalCoefficients(d, z, dz, sp);
      ghost var rs := RhsEntries(f, q, sp, 0, cs, us, ls);
      var rhs := new real[n];
      var central := new real[n];
      var upper := new real[n - 1];
      var lower := new real[n - 1];
      var iz := 0;
      while iz < zSize - 1
        invariant 0 <= iz <= zSize - 1
        invariant Row(dZz, ip) == d && Row(fCr, ip) == f && Row(qCr, ip) == q && Step(operators, tNow) == sp
        invariant AssembledUpTo(iz, central, upper, lower, rhs, cs, us, ls, rs)
      {
        AssembleSphericalNode(ip, iz, operators, tNow, central, upper, lower, rhs, f, d, q, sp, cs, us, ls, rs);
        iz := iz + 1;
      }
      AssembledAll(central, upper, lower, rhs, cs, us, ls, rs);
      SphericalFromEntries(f, d, q, z, dz, sp, central[..], upper[..], lower[..], rhs[..]);
      s := System(central[..], upper[..], lower[..], rhs[..]);
    }

    /** The write-back loop of evolve_f_in_z_3D and evolve_f_in_p's
        counterpart for momentum row ip: the clamped solution on
        iz = 0 .. z_size-2. */
    method WriteClampedRow(ip: nat, x: seq<real>)
      requires Valid() && ip < pSize && zSize >= 1 && |x| == zSize - 1
      modifies fCr
      ensures Row(fCr, ip) == ClampedSolution(old(Row(fCr, ip)), x)
      ensures forall i, j | 0 <= i < pSize && 0 <= j < zSize && i != ip :: fCr[i, j] == old(fCr[i, j])
    {
      ghost var f0 := Row(fCr, ip);
      ghost var upd := ClampedSolution(f0, x);
      var iz := 0;
      while iz < zSize - 1
        invariant 0 <= iz <= zSize - 1
        invariant forall j | 0 <= j < zSize :: fCr[ip, j] == if j < iz then upd[j] else f0[j]
        invariant forall i, j | 0 <= i < pSize && 0 <= j < zSize && i != ip :: fCr[i, j] == old(fCr[i, j])
      {
        fCr[ip, iz] := Max(x[iz], 0.0);
        iz := iz + 1;
      }
      assert Row(fCr, ip) == upd;
    }

    /** One momentum row of evolve_f_in_z_3D: assemble, solve, write back. */
    method EvolveSphericalRow(ip: nat, operators: nat, tNow: real)
      requires Valid() && ip < pSize && zSize >= 3 && dz != 0.0 && operators > 0
      modifies fCr
      ensures Row(fCr, ip) == SphericalUpdate(old(Row(fCr, ip)), Row(dZz, ip), Row(qCr, ip), z, dz, Step(operators, tNow), solveTridiag)
      ensures forall i, j | 0 <= i < pSize && 0 <= j < zSize && i != ip :: fCr[i, j] == old(fCr[i, j])
    {
      var s := AssembleSpherical(ip, operators, tNow);
      var x := solveTridiag(s.central, s.upper, s.lower, s.rhs);
      WriteClampedRow(ip, x);
    }

    /** evolve_f_in_z_3D: every momentum row but the last is advanced by the
        spherical solve. */
    method EvolveFInZ3D(operators: nat, tNow: real)
      requires Valid() && zSize >= 3 && dz != 0.0 && operators > 0
      modifies fCr
      ensures GridOf(fCr) == SphericalSweep(old(GridOf(fCr)), GridOf(dZz), GridOf(qCr), z, dz, Step(operators, tNow), solveTridiag)
    {
      ghost var g0 := GridOf(fCr);
      ghost var target := SphericalSweep(g0, GridOf(dZz), GridOf(qCr), z, dz, Step(operators, tNow), solveTridiag);
      var ip := 0;
      while ip < pSize - 1
        invariant 0 <= ip <= pSize - 1
        invariant forall i, j | 0 <= i < pSize && 0 <= j < zSize :: fCr[i, j] == if i < ip then target[i][j] else g0[i][j]
      {
        RowOfGrid(dZz, ip);
        RowOfGrid(qCr, ip);
        assert Row(fCr, ip) == g0[ip];
        EvolveSphericalRow(ip, operators, tNow);
        ip := ip + 1;
      }
      GridExtensional(fCr, target);
    }

    /** evolve_f_in_z: the spherical solver when do_3D is set, the planar one
        otherwise. A non-negative distribution stays non-negative. */
    method EvolveFInZ(operators: nat, tNow: real)
      requires Valid() && zSize >= 3 && dz != 0.0 && operators > 0
      modifies fCr
      ensures GridOf(fCr) == HeightSweep(par.do3D, old(GridOf(fCr)), GridOf(dZz), GridOf(qCr), z, dz, Step(operators, tNow), solveTridiag)
      ensures GridOf(fCr)[pSize - 1] == old(GridOf(fCr))[pSize - 1]
      ensures old(NonNegativeGrid(GridOf(fCr))) ==> NonNegativeGrid(GridOf(fCr))
      ensures GridOf(wSg) == old(GridOf(wSg))
    {
      if par.do3D {
        EvolveFInZ3D(operators, tNow);
      } else {
        EvolveFInZ1D(operators, tNow);
      }
      if old(NonNegativeGrid(GridOf(fCr))) {
        HeightSweepNonNegative(par.do3D, old(GridOf(fCr)), GridOf(dZz), GridOf(qCr), z, dz, Step(operators, tNow), solveTridiag);
      }
    }

    // -------------------------------------------------------------------------
    // evolve_f_in_p

    /** Diagonal, super- and sub-diagonal entries of the momentum system at
        bin ip of any height column; the adiabatic term b_i is 0. */
    method MomentumNodeCoefficients(ip: nat, operators: nat, tNow: real) returns (c: real, u: real, l: real)
      requires Valid() && ip < pSize - 1 && MomentumSpacing(p)
      ensures c == MomentumCentral(p, dpDt[..], Step(operators, tNow), ip)
      ensures u == MomentumUpper(p, dpDt[..], Step(operators, tNow), ip)
      ensures ip >= 1 ==> l == MomentumLower(p, dpDt[..], Step(operators, tNow), ip - 1)
    {
      var b := 0.0;
      var lo, ce, up := 0.0, 0.0, 0.0;
      ce := ce + b;
      up := up + b;
      ce := ce - dpDt[ip] / (p[ip + 1] - p[ip]);
      up := up - (p[ip + 1] / p[ip]) * (p[ip + 1] / p[ip]) * dpDt[ip + 1] / (p[ip + 1] - p[ip]);
      c := 1.0 + dtHalf * ce;
      u := -dtHalf * up;
      l := -dtHalf * lo;
    }

    /** Row ip of the right-hand side of height column iz, from the
        coefficients c, u and l already stored for bin ip. */
    method MomentumRhs(iz: nat, ip: nat, c: real, u: real, l: real, operators: nat, tNow: real,
                       ghost cs: seq<real>, ghost us: seq<real>, ghost ls: seq<real>) returns (r: real)
      requires Valid() && iz < zSize && ip <= pSize - 2 && operators > 0
      requires |cs| == pSize - 1 && |us| == |cs| - 1 && |ls| == |cs| - 1
      requires c == cs[ip]
      requires ip != pSize - 2 ==> u == us[ip]
      requires ip != 0 ==> l == ls[ip - 1]
      ensures r == RhsEntry(ColumnOf(fCr, iz), ColumnOf(qCr, iz), Step(operators, tNow), 0, cs, us, ls, ip)
    {
      r := fCr[ip, iz] * (2.0 - c);
      if ip != pSize - 2 {
        r := r - fCr[ip + 1, iz] * u;
      }
      if ip != 0 {
        r := r - fCr[ip - 1, iz] * l;
      }
      var source := qCr[ip, iz] * phys.sourceEvolution(tNow, par.sourceTdecay);
      r := r + dt * source / operators as real;
      ghost var fUp := if ip != pSize - 2 then fCr[ip + 1, iz] else 0.0;
      ghost var fDown := if ip != 0 then fCr[ip - 1, iz] else 0.0;
      ghost var sp := Step(operators, tNow);
      assert r == fCr[ip, iz] * (2.0 - c) - (if ip != pSize - 2 then fUp * u else 0.0)
                 - (if ip != 0 then fDown * l else 0.0) + dt * source / operators as real;
      assert (if ip != pSize - 2 then fUp * u else 0.0) == (if ip + 1 < |cs| then fUp * us[ip] else 0.0);
      assert (if ip != 0 then fDown * l else 0.0) == (if ip > 0 then fDown * ls[ip - 1] else 0.0);
      assert fCr[ip, iz] * (2.0 - c) == fCr[ip, iz] * (2.0 - cs[ip]);
      ghost var f, q, fMid, qMid := ColumnOf(fCr, iz), ColumnOf(qCr, iz), fCr[ip, iz], qCr[ip, iz];
      assert Injection(qMid, sp) == dt * source / operators as real by {
        assert sp == StepParams(dt, dtHalf, phys.sourceEvolution(tNow, par.sourceTdecay), operators);
      }
      RhsEntryFromValues(f, q, sp, 0, cs, us, ls, ip, fMid, fUp, fDown, qMid);
    }

    /** One pass of the assembly loop of evolve_f_in_p: the entries of bin
        ip stored in row ip of the system arrays. */
    method AssembleMomentumNode(iz: nat, ip: nat, operators: nat, tNow: real,
                                central: array<real>, upper: array<real>, lower: array<real>, rhs: array<real>,
                                ghost f: seq<real>, ghost q: seq<real>, ghost dpdt: seq<real>, ghost sp: StepParams,
                                ghost cs: seq<real>, ghost us: seq<real>, ghost ls: seq<real>, ghost rs: seq<real>)
      requires Valid() && iz < zSize && ip <= pSize - 2 && MomentumSpacing(p) && operators > 0
      requires ColumnOf(fCr, iz) == f && ColumnOf(qCr, iz) == q && dpDt[..] == dpdt && Step(operators, tNow) == sp
      requires |cs| == pSize - 1 && |us| == |cs| - 1 && |ls| == |cs| - 1 && |rs| == |cs|
      requires forall i {:trigger MomentumCentral(p, dpdt, sp, i)} | 0 <= i < |cs| :: cs[i] == MomentumCentral(p, dpdt, sp, i)
      requires forall i {:trigger MomentumUpper(p, dpdt, sp, i)} | 0 <= i < |us| :: us[i] == MomentumUpper(p, dpdt, sp, i)
      requires forall j {:trigger MomentumLower(p, dpdt, sp, j)} | 0 <= j < |ls| :: ls[j] == MomentumLower(p, dpdt, sp, j)
      requires forall i {:trigger RhsEntry(f, q, sp, 0, cs, us, ls, i)} | 0 <= i < |cs| :: rs[i] == RhsEntry(f, q, sp, 0, cs, us, ls, i)
      requires AssembledUpTo(ip, central, upper, lower, rhs, cs, us, ls, rs)
      requires upper != lower && central != upper && central != lower && rhs != upper && rhs != lower && rhs != central
      modifies central, upper, lower, rhs
      ensures AssembledUpTo(ip + 1, central, upper, lower, rhs, cs, us, ls, rs)
    {
      var c, u, l := MomentumNodeCoefficients(ip, operators, tNow);
      var r := MomentumRhs(iz, ip, c, u, l, operators, tNow, cs, us, ls);
      StoreNode(ip, c, u, l, r, ip != pSize - 2, ip != 0, central, upper, lower, rhs, cs, us, ls, rs);
    }

    /** The momentum system of height column iz, assembled bin by bin for
        ip = 0 .. p_size-2. */
    method AssembleMomentum(iz: nat, operators: nat, tNow: real) returns (s: System)
      requires Valid() && iz < zSize && pSize >= 2 && MomentumSpacing(p) && operators > 0
      ensures s == MomentumSystem(ColumnOf(fCr, iz), ColumnOf(qCr, iz), p, dpDt[..], Step(operators, tNow))
    {
      ghost var f, q, dpdt := ColumnOf(fCr, iz), ColumnOf(qCr, iz), dpDt[..];
      ghost var sp := Step(operators, tNow);
      var n := pSize - 1;
      ghost var cs, us, ls := MomentumCoefficientSeqs(p, dpdt, sp);
      ghost var rs := RhsEntries(f, q, sp, 0, cs, us, ls);
      var rhs := new real[n];
      var central := new real[n];
      var upper := new real[n - 1];
      var lower := new real[n - 1];
      var ip := 0;
      while ip < pSize - 1
        invariant 0 <= ip <= pSize - 1
        invariant ColumnOf(fCr, iz) == f && ColumnOf(qCr, iz) == q && dpDt[..] == dpdt && Step(operators, tNow) == sp
        invariant AssembledUpTo(ip, central, upper, lower, rhs, cs, us, ls, rs)
      {
        AssembleMomentumNode(iz, ip, operators, tNow, central, upper, lower, rhs, f, q, dpdt, sp, cs, us, ls, rs);
        ip := ip + 1;
      }
      AssembledAll(central, upper, lower, rhs, cs, us, ls, rs);
      MomentumFromEntries(f, q, p, dpdt, sp, central[..], upper[..], lower[..], rhs[..]);
      s := System(central[..], upper[..], lower[..], rhs[..]);
    }

    /** The write-back loop of evolve_f_in_p for height column iz: the
        clamped solution on ip = 0 .. p_size-2. */
    method WriteClampedColumn(iz: nat, x: seq<real>)
      requires Valid() && iz < zSize && |x| == pSize - 1
      modifies fCr
      ensures ColumnOf(fCr, iz) == ClampedSolution(old(ColumnOf(fCr, iz)), x)
      ensures forall i, j | 0 <= i < pSize && 0 <= j < zSize && j != iz :: fCr[i, j] == old(fCr[i, j])
    {
      ghost var f0 := ColumnOf(fCr, iz);
      ghost var upd := ClampedSolution(f0, x);
      var ip := 0;
      while ip < pSize - 1
        invariant 0 <= ip <= pSize - 1
        invariant forall i | 0 <= i < pSize :: fCr[i, iz] == if i < ip then upd[i] else f0[i]
        invariant forall i, j | 0 <= i < pSize && 0 <= j < zSize && j != iz :: fCr[i, j] == old(fCr[i, j])
      {
        fCr[ip, iz] := Max(x[ip], 0.0);
        ip := ip + 1;
      }
      assert ColumnOf(fCr, iz) == upd;
    }

    /** One height column of evolve_f_in_p: assemble, solve, write back. */
    method EvolveMomentumColumn(iz: nat, operators: nat, tNow: real)
      requires Valid() && iz < zSize && pSize >= 2 && MomentumSpacing(p) && operators > 0
      modifies fCr
      ensures ColumnOf(fCr, iz) == MomentumUpdate(old(ColumnOf(fCr, iz)), ColumnOf(qCr, iz), p, dpDt[..], Step(operators, tNow), solveTridiag)
      ensures forall i, j | 0 <= i < pSize && 0 <= j < zSize && j != iz :: fCr[i, j] == old(fCr[i, j])
    {
      var s := AssembleMomentum(iz, operators, tNow);
      var x := solveTridiag(s.central, s.upper, s.lower, s.rhs);
      WriteClampedColumn(iz, x);
    }

    /** evolve_f_in_p: every height column but the two end ones is advanced
        by the momentum solve. A non-negative distribution stays
        non-negative. */
    method EvolveFInP(operators: nat, tNow: real)
      requires Valid() && pSize >= 2 && MomentumSpacing(p) && operators > 0
      modifies fCr
      ensures GridOf(fCr) == MomentumSweep(old(GridOf(fCr)), GridOf(qCr), p, dpDt[..], zSize, Step(operators, tNow), solveTridiag)
      ensures old(NonNegativeGrid(GridOf(fCr))) ==> NonNegativeGrid(GridOf(fCr))
    {
      ghost var g0 := GridOf(fCr);
      ghost var target := MomentumSweep(g0, GridOf(qCr), p, dpDt[..], zSize, Step(operators, tNow), solveTridiag);
      var iz := 1;
      while iz < zSize - 1
        invariant 1 <= iz <= zSize
        invariant forall i, j | 0 <= i < pSize && 0 <= j < zSize :: fCr[i, j] == if 1 <= j < iz then target[i][j] else g0[i][j]
      {
        ColumnOfGrid(qCr, iz);
        assert ColumnOf(fCr, iz) == Column(g0, zSize, iz);
        EvolveMomentumColumn(iz, operators, tNow);
        iz := iz + 1;
      }
      GridExtensional(fCr, target);
      if NonNegativeGrid(g0) {
        MomentumSweepNonNegative(g0, GridOf(qCr), p, dpDt[..], zSize, Step(operators, tNow), solveTridiag);
      }
    }

    // -------------------------------------------------------------------------
    // evolve_waves

    /** The per-call constants of the wave update. */
    function WaveStepOf(operators: nat): WaveStep
      reads this
    {
      WaveStep(dt, operators, factorDamping, factorGrowth, par.doKolmogorov)
    }

    /** The new W_sg at cell (ip, iz) for wavenumber k, with the damping rate
        as the source computes it: k^1.5·√W when factor_damping·do_kolmogorov
        is non-zero, k²·W otherwise. */
    method WaveCellValue(ip: nat, iz: nat, k: real, operators: nat) returns (v: real)
      requires Valid() && ip < pSize && iz < zSize && k > 0.0 && operators > 0
      ensures v == WaveCell(phys, wSg[ip, iz], wIsm[ip, iz], dfDz[ip, iz], p[ip], k,
                            DampingRateAsWritten(phys, k, wSg[ip, iz], WaveStepOf(operators)), WaveStepOf(operators))
      ensures v >= 0.0
    {
      var ws := WaveStepOf(operators);
      var w := wSg[ip, iz];
      var gammaD := if ws.factorDamping * (if ws.doKolmogorov then 1.0 else 0.0) != 0.0 then phys.pow15(k) * phys.sqrt(w) else k * k * w;
      var gammaDGal := ws.factorDamping * phys.pow15(k) * phys.sqrt(wIsm[ip, iz]);
      var wGammaCr := ws.factorGrowth / k * (p[ip] * p[ip] * p[ip] * p[ip]) * dfDz[ip, iz];
      var qw := wGammaCr - gammaD * w + gammaDGal * wIsm[ip, iz];
      v := Max(w + ws.dt * qw / ws.operators as real, 0.0);
      assert gammaD == DampingRateAsWritten(phys, k, w, ws);
      assert v == WaveCell(phys, w, wIsm[ip, iz], dfDz[ip, iz], p[ip], k, gammaD, ws);
    }

    /** evolve_waves: every cell of W_sg advanced by one explicit step of
        growth and damping and clamped at zero. */
    method EvolveWaves(operators: nat)
      requires Valid() && operators > 0
      modifies wSg
      ensures GridOf(wSg) == WaveSweep(phys, old(GridOf(wSg)), GridOf(wIsm), GridOf(dfDz), p, zSize,
                                       par.magneticField, WaveStepOf(operators))
      ensures NonNegativeGrid(GridOf(wSg))
    {
      ghost var g0 := GridOf(wSg);
      ghost var target := WaveSweep(phys, g0, GridOf(wIsm), GridOf(dfDz), p, zSize, par.magneticField, WaveStepOf(operators));
      var ip := 0;
      while ip < pSize
        invariant 0 <= ip <= pSize
        invariant forall i, j | 0 <= i < pSize && 0 <= j < zSize :: wSg[i, j] == if i < ip then target[i][j] else g0[i][j]
      {
        var k := 1.0 / phys.larmorRadius(p[ip], par.magneticField);
        assert k == Wavenumber(phys, p[ip], par.magneticField);
        var iz := 0;
        while iz < zSize
          invariant 0 <= iz <= zSize
          invariant forall i, j | 0 <= i < pSize && 0 <= j < zSize ::
            wSg[i, j] == if i < ip || (i == ip && j < iz) then target[i][j] else g0[i][j]
        {
          var v := WaveCellValue(ip, iz, k, operators);
          wSg[ip, iz] := v;
          iz := iz + 1;
        }
        ip := ip + 1;
      }
      GridExtensional(wSg, target);
    }

    // -------------------------------------------------------------------------
    // Diagnostics of evolve.cpp

    /** The energy integral of a field over the grid: for every height the
        momentum sum up to the last bin but one, weighted by z² in 3D, then
        scaled by the volume factor of the geometry. */
    method IntegrateEnergy(a: array2<real>) returns (value: real)
      requires Valid() && a.Length0 == pSize && a.Length1 == zSize
      ensures value == EnergyIntegral(p, z, GridOf(a), par.do3D, dz, dlnp)
    {
      ghost var g := GridOf(a);
      value := 0.0;
      var iz := 0;
      while iz < zSize
        invariant 0 <= iz <= zSize
        invariant value == HeightSum(p, z, g, par.do3D, iz)
      {
        var integral := 0.0;
        var ip := 0;
        while ip < pSize - 1
          invariant 0 <= ip <= pSize - 1
          invariant integral == MomentumSum(p, g, iz, ip)
        {
          integral := integral + p[ip] * p[ip] * p[ip] * a[ip, iz] * (p[ip] * CLight);
          ip := ip + 1;
        }
        if par.do3D {
          value := value + z[iz] * z[iz] * integral;
        } else {
          value := value + integral;
        }
        iz := iz + 1;
      }
      if par.do3D {
        value := value * ((4.0 * Pi) * (4.0 * Pi) * dz * dlnp);
      } else {
        value := value * (4.0 * (Pi * Pi) * (ReferenceRadius * ReferenceRadius) * dz * dlnp);
      }
    }

    /** compute_total_energy_in_fcr: the energy integral of f_cr. */
    method ComputeTotalEnergyInFcr() returns (value: real)
      requires Valid()
      ensures value == EnergyIntegral(p, z, GridOf(fCr), par.do3D, dz, dlnp)
    {
      value := IntegrateEnergy(fCr);
    }

    /** compute_source_luminosity: the same integral of the source Q_cr. */
    method ComputeSourceLuminosity() returns (value: real)
      requires Valid()
      ensures value == EnergyIntegral(p, z, GridOf(qCr), par.do3D, dz, dlnp)
    {
      value := IntegrateEnergy(qCr);
    }

    /** test_total_energy: the source luminosity, the energy it has injected
        by t = counter·dt, and the energy in the CRs. */
    method TestTotalEnergy(counter: nat, dtArg: real) returns (luminosity: real, injected: real, inCrs: real)
      requires Valid() && StepTime(counter, dtArg) + par.sourceTdecay != 0.0
      ensures luminosity == EnergyIntegral(p, z, GridOf(qCr), par.do3D, dz, dlnp)
      ensures injected == InjectedEnergy(luminosity, StepTime(counter, dtArg), par.sourceTdecay)
      ensures inCrs == EnergyIntegral(p, z, GridOf(fCr), par.do3D, dz, dlnp)
    {
      luminosity := ComputeSourceLuminosity();
      var t := counter as real * dtArg;
      var t0 := par.sourceTdecay;
      var l := ComputeSourceLuminosity();
      injected := l * (t * t0 / (t + t0));
      inCrs := ComputeTotalEnergyInFcr();
    }

    /** test_boundary_conditions: Σ|f| over both height faces, then over the
        top momentum edge. */
    method TestBoundaryConditions() returns (value: real)
      requires Valid()
      ensures value == BorderLeak(GridOf(fCr), pSize, zSize)
    {
      ghost var g := GridOf(fCr);
      value := 0.0;
      var ip := 0;
      while ip < pSize
        invariant 0 <= ip <= pSize
        invariant value == FaceSum(g, zSize, ip)
      {
        value := value + Abs(fCr[ip, zSize - 1]);
        value := value + Abs(fCr[ip, 0]);
        ip := ip + 1;
      }
      var iz := 0;
      while iz < zSize
        invariant 0 <= iz <= zSize
        invariant value == FaceSum(g, zSize, pSize) + EdgeSum(g, zSize, iz)
      {
        value := value + Abs(fCr[pSize - 1, iz]);
        iz := iz + 1;
      }
    }

    // -------------------------------------------------------------------------
    // The driver: evolve

    /** The fields f_cr, W_sg, df_dz and D_zz as they are now. */
    ghost function FieldsNow(): Fields
      reads this, fCr, wSg, dfDz, dZz
    {
      Fields(GridOf(fCr), GridOf(wSg), GridOf(dfDz), GridOf(dZz))
    }

    /** What the loop of evolve holds fixed, as it is now. */
    ghost function Setup(): LoopSetup
      reads this, qCr, wIsm
    {
      LoopSetup(par.do3D, par.doSelfGeneration, phys, solveTridiag, p, z, dz, GridOf(qCr), GridOf(wIsm),
                par.magneticField, par.sourceTdecay, dt, dtHalf, WaveStepOf(1))
    }

    /** compute_dfdz, whose code is not part of this model: df_dz becomes
        the given function of f_cr. */
    method ComputeDfDz(gradient: seq<seq<real>> -> seq<seq<real>>)
      requires Valid() && IsGrid(gradient(GridOf(fCr)), pSize, zSize)
      modifies dfDz
      ensures GridOf(dfDz) == gradient(GridOf(fCr))
    {
      ReplaceField(dfDz, gradient(GridOf(fCr)));
    }

    /** compute_D_zz, whose code is not part of this model: D_zz becomes the
        given function of W_sg. */
    method ComputeDZz(diffusion: seq<seq<real>> -> seq<seq<real>>)
      requires Valid() && IsGrid(diffusion(GridOf(wSg)), pSize, zSize)
      modifies dZz
      ensures GridOf(dZz) == diffusion(GridOf(wSg))
    {
      ReplaceField(dZz, diffusion(GridOf(wSg)));
    }

    /** The self-generated-wave feedback of one step: df_dz from f_cr, one
        wave update, D_zz from the new waves. */
    method Feedback(gradient: seq<seq<real>> -> seq<seq<real>>, diffusion: seq<seq<real>> -> seq<seq<real>>)
      requires Valid()
      requires KeepsShape(gradient, pSize, zSize)
      requires KeepsShape(diffusion, pSize, zSize)
      modifies wSg, dfDz, dZz
      ensures GridOf(dfDz) == gradient(GridOf(fCr))
      ensures GridOf(wSg) == WaveSweep(phys, old(GridOf(wSg)), GridOf(wIsm), GridOf(dfDz), p, zSize,
                                       par.magneticField, WaveStepOf(1))
      ensures GridOf(dZz) == diffusion(GridOf(wSg))
      ensures GridOf(fCr) == old(GridOf(fCr)) && NonNegativeGrid(GridOf(wSg))
    {
      ComputeDfDz(gradient);
      EvolveWaves(1);
      ComputeDZz(diffusion);
    }

    /** The diagnostics of a dump step: test_total_energy(counter, dt) and
        test_boundary_conditions. */
    method Diagnose(counter: nat) returns (luminosity: real, injected: real, inCrs: real, leak: real)
      requires Valid() && dt >= 0.0 && par.sourceTdecay > 0.0
      ensures luminosity == EnergyIntegral(p, z, GridOf(qCr), par.do3D, dz, dlnp)
      ensures injected == InjectedEnergy(luminosity, StepTime(counter, dt), par.sourceTdecay)
      ensures inCrs == EnergyIntegral(p, z, GridOf(fCr), par.do3D, dz, dlnp)
      ensures leak == BorderLeak(GridOf(fCr), pSize, zSize)
    {
      ProductNonNegative(counter as real, dt);
      luminosity, injected, inCrs := TestTotalEnergy(counter, dt);
      leak := TestBoundaryConditions();
    }

    /** The rest of one pass of the loop of evolve after the height solve:
        the wave feedback once the warm-up is over and self-generation is
        on, then the diagnostics every dump_counter steps; f_cr is left
        alone. */
    method FeedbackAndDiagnostics(counter: nat, dumpCounter: nat,
                                  gradient: seq<seq<real>> -> seq<seq<real>>, diffusion: seq<seq<real>> -> seq<seq<real>>)
      returns (ghost events: seq<Event>)
      requires Valid() && dumpCounter > 0 && dt >= 0.0 && par.sourceTdecay > 0.0
      requires KeepsShape(gradient, pSize, zSize)
      requires KeepsShape(diffusion, pSize, zSize)
      modifies wSg, dfDz, dZz
      ensures [ZSolve(counter, StepTime(counter, dt))] + events == StepEvents(counter, dt, par.doSelfGeneration, dumpCounter)
      ensures FieldsNow() == AfterFeedback(Setup(), old(FieldsNow()), counter, gradient, diffusion)
      ensures GridOf(fCr) == old(GridOf(fCr))
      ensures old(NonNegativeGrid(GridOf(wSg))) ==> NonNegativeGrid(GridOf(wSg))
    {
      events := [];
      if counter > WarmUpSteps && par.doSelfGeneration {
        Feedback(gradient, diffusion);
        events := events + [GradientUpdate(counter), WaveUpdate(counter), DiffusionUpdate(counter)];
      }
      if counter % dumpCounter == 0 {
        var luminosity, injected, inCrs, leak := Diagnose(counter);
        events := events + [Dump(counter, StepTime(counter, dt))];
      }
    }

    /** One pass of the loop of evolve, for step `counter`, recording its
        events as they happen: they are those of Schedule.StepEvents. */
    method EvolveStep(counter: nat, dumpCounter: nat,
                      gradient: seq<seq<real>> -> seq<seq<real>>, diffusion: seq<seq<real>> -> seq<seq<real>>)
      returns (ghost events: seq<Event>)
      requires Valid() && zSize >= 3 && dz != 0.0 && dumpCounter > 0
      requires dt >= 0.0 && par.sourceTdecay > 0.0
      requires KeepsShape(gradient, pSize, zSize)
      requires KeepsShape(diffusion, pSize, zSize)
      modifies fCr, wSg, dfDz, dZz
      ensures events == StepEvents(counter, dt, par.doSelfGeneration, dumpCounter)
      ensures FieldsNow() == AfterFeedback(Setup(), AfterHeightSolve(Setup(), old(FieldsNow()), counter), counter, gradient, diffusion)
    {
      EvolveFInZ(1, StepTime(counter, dt));
      var rest := FeedbackAndDiagnostics(counter, dumpCounter, gradient, diffusion);
      events := [ZSolve(counter, StepTime(counter, dt))] + rest;
    }

    /** Step done+1 of the loop of evolve, after steps 1 .. done took the
        fields from `s0`. */
    method RunOneStep(done: nat, dumpCounter: nat,
                      gradient: seq<seq<real>> -> seq<seq<real>>, diffusion: seq<seq<real>> -> seq<seq<real>>,
                      ghost c: LoopSetup, ghost s0: Fields)
      returns (ghost events: seq<Event>)
      requires Valid() && zSize >= 3 && dz != 0.0 && dumpCounter > 0
      requires dt >= 0.0 && par.sourceTdecay > 0.0
      requires KeepsShape(gradient, pSize, zSize)
      requires KeepsShape(diffusion, pSize, zSize)
      requires c == Setup() && Shaped(c, s0) && FieldsNow() == RunFields(c, s0, done, gradient, diffusion)
      modifies fCr, wSg, dfDz, dZz
      ensures events == StepEvents(done + 1, dt, par.doSelfGeneration, dumpCounter)
      ensures c == Setup() && FieldsNow() == RunFields(c, s0, done + 1, gradient, diffusion)
    {
      ghost var mid := HeightPass(c, s0, done + 1, gradient, diffusion);
      assert mid == AfterHeightSolve(c, FieldsNow(), done + 1);
      events := EvolveStep(done + 1, dumpCounter, gradient, diffusion);
      assert RunFields(c, s0, done + 1, gradient, diffusion) == AfterFeedback(c, mid, done + 1, gradient, diffusion);
    }

    /** The loop of evolve: steps 1 .. max_counter at the current dt. */
    method RunSteps(maxCounter: nat, dumpCounter: nat,
                    gradient: seq<seq<real>> -> seq<seq<real>>, diffusion: seq<seq<real>> -> seq<seq<real>>)
      returns (ghost events: seq<Event>)
      requires Valid() && zSize >= 3 && dz != 0.0 && dumpCounter > 0
      requires dt >= 0.0 && par.sourceTdecay > 0.0
      requires KeepsShape(gradient, pSize, zSize)
      requires KeepsShape(diffusion, pSize, zSize)
      modifies fCr, wSg, dfDz, dZz
      ensures events == RunEvents(maxCounter, dt, par.doSelfGeneration, dumpCounter)
      ensures FieldsNow() == RunFields(old(Setup()), old(FieldsNow()), maxCounter, gradient, diffusion)
      ensures GridOf(fCr)[pSize - 1] == old(GridOf(fCr))[pSize - 1]
      ensures old(NonNegativeGrid(GridOf(fCr))) ==> NonNegativeGrid(GridOf(fCr))
      ensures old(NonNegativeGrid(GridOf(wSg))) ==> NonNegativeGrid(GridOf(wSg))
    {
      ghost var setup, start := Setup(), FieldsNow();
      events := [];
      var counter: nat := 0;
      while counter < maxCounter
        invariant counter <= maxCounter
        invariant events == RunEvents(counter, dt, par.doSelfGeneration, dumpCounter)
        invariant setup == Setup() && FieldsNow() == RunFields(setup, start, counter, gradient, diffusion)
      {
        ghost var step := RunOneStep(counter, dumpCounter, gradient, diffusion, setup, start);
        events := events + step;
        counter := counter + 1;
      }
      RunFieldsTopRow(setup, start, maxCounter, gradient, diffusion);
      RunFieldsNonNegative(setup, start, maxCounter, gradient, diffusion);
    }

    /** evolve: set the step, then for counter = 1 .. max_counter solve the
        height transport at t = counter·dt, after the warm-up run the wave
        feedback when self-generation is on, and every dump_counter steps
        run the diagnostics. The events happen in the order Schedule.Trace
        gives; the last momentum row is never written; a non-negative
        distribution and non-negative waves stay non-negative. */
    method Evolve(dtStep: real, maxCounter: nat, dumpCounter: nat,
                  gradient: seq<seq<real>> -> seq<seq<real>>, diffusion: seq<seq<real>> -> seq<seq<real>>)
      returns (ghost trace: seq<Event>)
      requires Valid() && zSize >= 3 && dz != 0.0 && dumpCounter > 0
      requires dtStep >= 0.0 && par.sourceTdecay > 0.0
      requires KeepsShape(gradient, pSize, zSize)
      requires KeepsShape(diffusion, pSize, zSize)
      modifies this, fCr, wSg, dfDz, dZz
      ensures Valid() && dt == dtStep
      ensures trace == Trace(maxCounter, dtStep, par.doSelfGeneration, dumpCounter)
      ensures FieldsNow() == RunFields(Setup(), old(FieldsNow()), maxCounter, gradient, diffusion)
      ensures GridOf(fCr)[pSize - 1] == old(GridOf(fCr))[pSize - 1]
      ensures old(NonNegativeGrid(GridOf(fCr))) ==> NonNegativeGrid(GridOf(fCr))
      ensures old(NonNegativeGrid(GridOf(wSg))) ==> NonNegativeGrid(GridOf(wSg))
    {
      SetDt(dtStep);
      trace := [Announce(maxCounter)];
      ghost var run := RunSteps(maxCounter, dumpCounter, gradient, diffusion);
      trace := trace + run + [Status(maxCounter)];
    }
  }
}
