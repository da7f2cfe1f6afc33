# SelfTevHalos evolution engine in Dafny

This project models the time-evolution engine of the SelfTevHalos simulation.
The simulation follows cosmic rays (CRs) escaping a source into a halo. Self-generated
Alfvén waves confine them. The engine is the class `Waves`. It holds these fields over
momentum `p` (rows) and height `z` (columns):

- the CR distribution `f_cr`;
- the source `Q_cr`;
- the wave intensities `W_sg` and `W_ISM`;
- the gradient `df_dz`;
- the diffusion coefficient `D_zz`.

It advances these fields by operator splitting:

- **Height transport** (`evolve_f_in_z`). This is a Crank–Nicolson step for each momentum row,
  solved as one tridiagonal system per row.
  - In planar geometry the system spans the interior nodes `1 .. z_size-2`. The solution is
    averaged with its mirror image and then clamped at zero.
  - In spherical geometry the system spans `0 .. z_size-2`. It uses the `D/(dz·r)` terms with
    the radius floored at 0.01 pc. The origin's lower coefficient is folded into the first upper
    coefficient.
  - The top momentum bin and the outer height node are never written.
- **Momentum transport** (`evolve_f_in_p`). This is the same kind of step along each interior
  height column. Its coefficients come from the loss rate `dp_dt`, and it is upper-bidiagonal.
- **Wave update** (`evolve_waves`). This is an explicit step per cell: growth driven by
  `df_dz·p⁴/k`, damping in the Kolmogorov or the turbulent regime, and ISM damping. The
  result is clamped at zero.
- **Driver** (`evolve`). It sets `dt` and runs `max_counter` steps. Each step runs a height
  solve. Once the warm-up of 10000 steps is over, and self-generation is on, the step also
  recomputes `df_dz`, updates the waves and recomputes `D_zz`. Every `dump_counter` steps it
  runs the energy and border diagnostics and a dump.
- **Diagnostics**:
  - the energy integral `∫ 4πp²·f·pc` over the grid (planar or spherical volume);
  - the injected energy `L·t·t0/(t+t0)`;
  - the border sum `Σ|f|` over both height faces and the top momentum edge.

Modules:

- `Units`: constants and `Max`/`Abs`.
- `Grids`: fields over (p, z) as values, and the shape and sign predicates on them.
- `Tridiag`: a tridiagonal system, its product with a vector, and the solver interface.
- `Evolutors`: the pure specification of every solver. It gives each row, column and cell
  update as a function of the old values, with the properties of those updates.
- `Diagnostics`: the energy integral, the injected energy and the border sum, with their
  properties.
- `Schedule`: the driver's step schedule as a trace of events, with properties of the trace.
- `Engine`: the class `Waves`, with its grids as `array2<real>` fields.
  - Each imperative solver assembles the coefficient arrays node by node, calls the solver and
    writes back the clamped slice.
  - Each solver is proved to leave the fields exactly as the matching `Evolutors` function says.
  - The driver loop is proved to follow the `Schedule` trace, and to leave `f_cr`, `W_sg`,
    `df_dz` and `D_zz` exactly as the pure step functions `AfterHeightSolve` and
    `AfterFeedback`, folded over the counters by `RunFields`, say.

## Model

| member | source | states |
|---|---|---|
| Engine.Waves.constructor | include/waves.h:78-103 | The engine starts valid and holds exactly the given axes, parameters and initial fields, with one grid cell per (p, z) pair; dt starts at 0. |
| Engine.Waves.SetDt | evolve.cpp:9-12 | dt becomes the new step and dt_half half of it; nothing else changes. |
| Engine.Waves.HeightCoefficients | src/evolutors.cpp:28-37 | The node's (U, C, L) are the planar stencil of D_zz: D/dz² ± (D(iz+1) − D(iz−1))/(4dz²) and 2D/dz². |
| Engine.Waves.SlabNodeCoefficients | src/evolutors.cpp:39-45 | The diagonal entries stored for interior node iz are the planar system's entries at index iz−1 (upper) and iz−2 (lower). |
| Engine.Waves.SlabRhs | src/evolutors.cpp:46-54 | The right-hand side entry is (2 − C)·f minus the off-diagonal neighbours, plus dt·Q·source_evolution/n, with the neighbour terms left out at the system's ends. |
| Engine.Waves.AssembleSlabNode | src/evolutors.cpp:27-55 | Storing one node extends the prefix of the four arrays that agrees with the planar system by one entry, and leaves the fields alone. |
| Engine.Waves.AssembleSlab | src/evolutors.cpp:21-55 | The assembled arrays are exactly the planar Crank–Nicolson system of the row. |
| Engine.Waves.WriteMirrorAverage | src/evolutors.cpp:59-62 | Row ip gets the clamped mirror average of the solution at the interior nodes, keeps its end nodes, and no other row changes. |
| Engine.Waves.EvolveSlabRow | src/evolutors.cpp:20-63 | Row ip becomes the planar update of its old values; every other row is unchanged. |
| Engine.Waves.EvolveFInZ1D | src/evolutors.cpp:16-64 | f_cr becomes the planar sweep of the old f_cr: every row but the top momentum bin is updated independently. |
| Engine.Waves.SphericalHeightCoefficients | src/evolutors.cpp:78-89 | The node's (U, C, L) are the planar stencil plus and minus D/(dz·r), with r = max(\|z\|, 0.01 pc). |
| Engine.Waves.SphericalNodeCoefficients | src/evolutors.cpp:91-100 | The stored entries are the spherical system's entries; at the origin the upper entry also carries −dt_half·L. |
| Engine.Waves.SphericalRhs | src/evolutors.cpp:101-109 | The right-hand side entry of node iz in the spherical system, with the neighbour terms left out at the system's ends. |
| Engine.Waves.AssembleSphericalNode | src/evolutors.cpp:77-110 | Storing one node extends the prefix that agrees with the spherical system by one entry. |
| Engine.Waves.AssembleSpherical | src/evolutors.cpp:71-110 | The assembled arrays are exactly the spherical Crank–Nicolson system of the row. |
| Engine.Waves.WriteClampedRow | src/evolutors.cpp:114-117 | Row ip gets the clamped solution at nodes 0 .. z_size−2 and keeps its outer node; no other row changes. |
| Engine.Waves.EvolveSphericalRow | src/evolutors.cpp:70-118 | Row ip becomes the spherical update of its old values; every other row is unchanged. |
| Engine.Waves.EvolveFInZ3D | src/evolutors.cpp:66-119 | f_cr becomes the spherical sweep of the old f_cr. |
| Engine.Waves.EvolveFInZ | src/evolutors.cpp:9-14 | The geometry flag picks the spherical or the planar sweep. The top momentum bin is unchanged, a non-negative f_cr stays non-negative, and W_sg is unchanged. |
| Engine.Waves.MomentumNodeCoefficients | src/evolutors.cpp:132-147 | The stored entries are the momentum system's entries from dp_dt at bins ip and ip+1, with L = 0 and b_i = 0. |
| Engine.Waves.MomentumRhs | src/evolutors.cpp:148-156 | The right-hand side entry of bin ip in column iz, with the neighbour terms left out at the system's ends. |
| Engine.Waves.AssembleMomentumNode | src/evolutors.cpp:131-157 | Storing one bin extends the prefix that agrees with the momentum system by one entry. |
| Engine.Waves.AssembleMomentum | src/evolutors.cpp:124-157 | The assembled arrays are exactly the momentum Crank–Nicolson system of column iz. |
| Engine.Waves.WriteClampedColumn | src/evolutors.cpp:161-164 | Column iz gets the clamped solution below the top bin and keeps the top bin; no other column changes. |
| Engine.Waves.EvolveMomentumColumn | src/evolutors.cpp:123-165 | Column iz becomes the momentum update of its old values; every other column is unchanged. |
| Engine.Waves.EvolveFInP | src/evolutors.cpp:121-166 | f_cr becomes the momentum sweep of the old f_cr over the interior columns, and non-negativity is kept. |
| Engine.Waves.WaveCellValue | src/evolutors.cpp:170-179 | The new wave value of a cell is the explicit step with the damping rate as the code computes it (k^1.5·√W when factor_damping·do_kolmogorov ≠ 0, k²·W otherwise), and it is non-negative. |
| Engine.Waves.EvolveWaves | src/evolutors.cpp:167-182 | W_sg becomes the cell-wise wave sweep of the old W_sg, with the damping as written, and is non-negative everywhere. |
| Engine.Waves.IntegrateEnergy | evolve.cpp:30-49 | The nested loops compute the energy integral of the given grid. |
| Engine.Waves.ComputeTotalEnergyInFcr | evolve.cpp:30-49 | The value is the energy integral of f_cr. |
| Engine.Waves.ComputeSourceLuminosity | evolve.cpp:51-70 | The value is the same integral taken over Q_cr. |
| Engine.Waves.TestTotalEnergy | evolve.cpp:72-80 | It reports the luminosity, the energy injected by t = counter·dt as L·t·t0/(t+t0), and the energy in CRs. |
| Engine.Waves.TestBoundaryConditions | evolve.cpp:82-91 | The value is Σ\|f\| over both height faces plus the top momentum edge. |
| Engine.Waves.ComputeDfDz | evolve.cpp:103 | df_dz becomes the gradient of the current f_cr. |
| Engine.Waves.ComputeDZz | evolve.cpp:106 | D_zz becomes the diffusion coefficient of the current W_sg. |
| Engine.Waves.Feedback | evolve.cpp:102-107 | In order: the gradient is taken from f_cr, the waves are updated from that gradient, and D_zz is taken from the new waves. f_cr is untouched. |
| Engine.Waves.Diagnose | evolve.cpp:108-113 | A dump step reports the luminosity, the injected energy, the CR energy and the border sum of the current fields. |
| Engine.Waves.FeedbackAndDiagnostics | evolve.cpp:102-113 | After the height solve, the rest of a step emits exactly the scheduled events. The four fields become AfterFeedback of the old ones: past the warm-up with self-generation on, df_dz = gradient(f_cr), W_sg = the wave sweep of the old W_sg with that gradient, D_zz = diffusion(new W_sg); otherwise all four are unchanged. f_cr is untouched and W_sg stays non-negative. |
| Engine.Waves.EvolveStep | evolve.cpp:99-113 | One pass of the loop emits exactly the scheduled events of that counter, and the four fields become AfterFeedback(AfterHeightSolve(old fields)): the height solve at t = counter·dt, then the feedback of that counter. |
| Engine.Waves.RunOneStep | evolve.cpp:99-113 | If the fields are those RunFields gives after steps 1 .. done, then after step done+1 they are those RunFields gives after steps 1 .. done+1, and the step's events are the scheduled ones. |
| Engine.Waves.RunSteps | evolve.cpp:97-114 | The loop emits the scheduled events of steps 1 .. max_counter in order. The four fields end as RunFields of the old fields over max_counter steps. f_cr's top bin is kept, and a non-negative f_cr and W_sg stay non-negative. |
| Engine.Waves.Evolve | evolve.cpp:93-116 | After set_dt, the trace is the run schedule, and the four fields end as RunFields of the old fields over max_counter steps at the new dt. f_cr's top bin is kept, and f_cr and W_sg stay non-negative. |
| Engine.AfterHeightSolve | evolve.cpp:100 | The height solve of step counter replaces f_cr by the height sweep at t = counter·dt with the current D_zz, and leaves W_sg, df_dz and D_zz alone. |
| Engine.AfterFeedback | evolve.cpp:102-107 | The feedback of step counter never changes f_cr, and keeps every field's grid shape. |
| Engine.RunFields | evolve.cpp:97-114 | The fields after steps 1 .. n keep every field's grid shape. |
| Engine.Pass | evolve.cpp:99-113 | Step n is its feedback applied to what its height solve left; the grid shapes are kept. |
| Engine.HeightPass | evolve.cpp:100 | The height solve of step n is applied to what steps 1 .. n−1 left; the grid shapes are kept. |
| Engine.RunFieldsWarmUp | evolve.cpp:102 | During the first 10000 steps, or with self-generation off, the loop leaves W_sg, df_dz and D_zz exactly as they were. |
| Engine.RunFieldsTopRow | evolve.cpp:97-114 | No step of the loop changes the top momentum bin of f_cr. |
| Engine.RunFieldsNonNegative | evolve.cpp:97-114 | A non-negative f_cr and a non-negative W_sg stay non-negative for every number of steps, whatever the solver, gradient and diffusion models. |
| Evolutors.Radius | src/evolutors.cpp:84 | The radius is max(\|z\|, 0.01 pc): at least both, and equal to one of them. |
| Evolutors.MirrorAverage | src/evolutors.cpp:59-62 | The end nodes are kept; the interior is non-negative and symmetric under iz ↦ z_size−1−iz. |
| Evolutors.SlabUpdate | src/evolutors.cpp:20-63 | A planar row keeps its end nodes and comes out non-negative and mirror-symmetric inside. |
| Evolutors.SlabRow | src/evolutors.cpp:20-63 | The top momentum row is unchanged; any other row keeps its ends and is non-negative and symmetric inside. |
| Evolutors.ClampedSolution | src/evolutors.cpp:114-117 | The last node is kept; every other node is non-negative and at least the solver's value. |
| Evolutors.SphericalUpdate | src/evolutors.cpp:70-118 | A spherical row keeps its outer node and is non-negative below it. |
| Evolutors.MomentumUpdate | src/evolutors.cpp:123-165 | A momentum column keeps its top bin and is non-negative below it. |
| Evolutors.Wavenumber | src/evolutors.cpp:170 | k = 1/r_L is positive for every momentum. |
| Evolutors.SlabSweep | src/evolutors.cpp:16-64 | The planar sweep keeps the top momentum bin and both end nodes of every row, and it symmetrizes and clamps every other row's interior. |
| Evolutors.SphericalSweep | src/evolutors.cpp:66-119 | The spherical sweep keeps the top momentum bin and the outer node, and it clamps everything else. |
| Evolutors.HeightSweep | src/evolutors.cpp:9-14 | Either geometry keeps the grid shape and the top momentum bin. |
| Evolutors.MomentumSweep | src/evolutors.cpp:121-166 | The momentum sweep keeps the top bin and both end columns, and it clamps the interior. |
| Evolutors.WaveSweep | src/evolutors.cpp:167-182 | The wave sweep, with the damping rate as the code computes it, keeps the grid shape and is non-negative everywhere. |
| Evolutors.HeightSweepNonNegative | src/evolutors.cpp:59-117 | A non-negative f_cr stays non-negative under the height solve in either geometry. |
| Evolutors.MomentumSweepNonNegative | src/evolutors.cpp:161-164 | A non-negative f_cr stays non-negative under the momentum solve. |
| Evolutors.CrankNicolsonSlab | src/evolutors.cpp:46-54 | The planar right-hand side is (2I − A)·f + dt·Q/n over the interior nodes: the Crank–Nicolson scheme. |
| Evolutors.CrankNicolsonSpherical | src/evolutors.cpp:101-109 | The spherical right-hand side is (2I − A)·f + dt·Q/n over nodes 0 .. z_size−2. |
| Evolutors.CrankNicolsonMomentum | src/evolutors.cpp:148-156 | The momentum right-hand side is (2I − A)·f + dt·Q/n over bins 0 .. p_size−2. |
| Evolutors.SphericalOriginFold | src/evolutors.cpp:84-96 | At the origin the spherical terms cancel: the first upper entry is −dt_half·2D/dz², and the floored radius is positive. |
| Evolutors.MomentumCoefficients | src/evolutors.cpp:132-146 | The momentum system has a zero lower diagonal, C = 1 − dt_half·dp_dt(ip)/Δp and U = dt_half·(p(ip+1)/p(ip))²·dp_dt(ip+1)/Δp. |
| Evolutors.SlabIgnoresEndNodes | src/evolutors.cpp:27-55 | Changing a planar row's two end nodes does not change its interior update. |
| Evolutors.SphericalIgnoresOuterNode | src/evolutors.cpp:77-110 | Changing a spherical row's outer node does not change its update. |
| Evolutors.MomentumIgnoresLastBin | src/evolutors.cpp:131-157 | Changing a column's top bin does not change its update. |
| Evolutors.WaveCellNoGrowth | src/evolutors.cpp:172-179 | With df_dz = 0 and W_ISM = 0, any non-negative damping rate keeps W between 0 and its old value. |
| Evolutors.DampingRateAsWrittenNonNegative | src/evolutors.cpp:173 | The damping rate as the code computes it is non-negative for k > 0 and W ≥ 0 in both branches. |
| Evolutors.WaveNoGrowthAsWritten | src/evolutors.cpp:169-179 | With df_dz = 0 and W_ISM = 0, one cell update with the damping as written keeps W between 0 and its old value. |
| Evolutors.WaveSweepNoGrowth | src/evolutors.cpp:167-182 | With df_dz = 0 and W_ISM = 0 everywhere, the wave sweep as written never raises any cell of a non-negative W_sg and never makes one negative. |
| Evolutors.DampingRateNonNegative | src/evolutors.cpp:173 | The intended damping rate is non-negative in both regimes. |
| Evolutors.WaveNoGrowth | src/evolutors.cpp:169-179 | With df_dz = 0 and W_ISM = 0, W_sg never grows and never goes negative under the intended damping. |
| Evolutors.DampingAsWrittenDropsFactor | src/evolutors.cpp:173 | As written, the regime is chosen by factor_damping·do_kolmogorov ≠ 0, and factor_damping no longer scales the rate. |
| Evolutors.DampingAsWrittenCounterexample | src/evolutors.cpp:173 | With factor_damping = 0, the Kolmogorov regime, k = 1 and W = 1, the code as written damps at rate 1 where the intended rate is 0. |
| Tridiag.CrankNicolsonRhs | src/evolutors.cpp:46-54 | The explicit half-step (2 − C)·x − U·x⁺ − L·x⁻ + q equals 2x − A·x + q. |
| Diagnostics.EnergyIgnoresLastBin | evolve.cpp:35-36 | The energy integral does not read the top momentum bin. |
| Diagnostics.EnergyNonNegative | evolve.cpp:30-49 | A non-negative field on positive momenta has non-negative energy. |
| Diagnostics.EnergyOfEmptyField | evolve.cpp:30-49 | A field that is zero below the top bin has zero energy. |
| Diagnostics.EnergyAdds | evolve.cpp:30-49 | The energy of a sum of fields is the sum of their energies. |
| Diagnostics.EnergyScales | evolve.cpp:30-49 | Scaling a field scales its energy by the same factor; with EnergyAdds, the integral is linear. |
| Diagnostics.InjectedEnergyBounds | evolve.cpp:74-76 | The injected energy is 0 at t = 0, lies between 0 and both L·t and L·t0, and never decreases in t. |
| Diagnostics.EffectiveTimeBounds | evolve.cpp:76 | The effective time t·t0/(t+t0) lies between 0 and both t and t0. |
| Diagnostics.EffectiveTimeMonotone | evolve.cpp:76 | The effective time never decreases in t. |
| Diagnostics.FaceSumZero | evolve.cpp:84-87 | The face sum is non-negative, and it is zero exactly when both height faces vanish. |
| Diagnostics.EdgeSumZero | evolve.cpp:88-89 | The edge sum is non-negative, and it is zero exactly when the top momentum edge vanishes. |
| Diagnostics.BorderLeakZero | evolve.cpp:82-91 | The border sum is non-negative, and it is zero exactly when f_cr vanishes on the whole border. |
| Schedule.StepEvents | evolve.cpp:99-113 | Every step starts with the height solve at t = counter·dt. |
| Schedule.StepDumpCount | evolve.cpp:108 | A step dumps once when counter is a multiple of dump_counter, and otherwise not at all. |
| Schedule.RunDumpCount | evolve.cpp:98-113 | A run of n steps dumps exactly ⌊n / dump_counter⌋ times. |
| Schedule.StepZSolveCounters | evolve.cpp:99-100 | Each step runs exactly one height solve, at its own counter. |
| Schedule.RunZSolveCounters | evolve.cpp:97-100 | A run of n steps solves in height exactly once per counter 1 .. n, in order. |
| Schedule.WaveUpdateSteps | evolve.cpp:102-107 | The waves are updated at step k exactly when 1 ≤ k ≤ n, k > 10000 and self-generation is on. |
| Schedule.DumpSteps | evolve.cpp:108-113 | A dump at (k, t) happens exactly when 1 ≤ k ≤ n, dump_counter divides k and t = k·dt. |
| Schedule.StepShape | evolve.cpp:100-107 | Within a step the wave update sits after the height solve and the gradient, and before the D_zz update. |
| Schedule.FeedbackOrder | evolve.cpp:100-107 | In the whole run, every wave update follows its step's height solve and gradient and precedes its D_zz update. |

## Left out

- OpenMP: the loops over momentum rows, height columns and cells run in sequence. The partition is stated instead: each slice method's contract says that nothing outside its own row or column changes.
- `GSL::gsl_linalg_solve_tridiag`: its code is not part of this model. It is a solver function of `Tridiag.Solver` type that only promises a solution of the right length. So no property depends on the accuracy of the solve.
- `larmor_radius`, `source_evolution`, `std::pow` and `std::sqrt` are function fields of `Evolutors.Physics`. The Larmor radius is assumed positive. Where a lemma needs `pow(·, 1.5)` and `sqrt` to be non-negative, it assumes so explicitly.
- Console output, timing and dumps (`print_counter2time`, `print_status`, `get_difftime`, `time`, `std::cout`, `dump`): they become events of a ghost trace, or are dropped. The ratio `in_crs / injected` printed at evolve.cpp:79 is not modelled.
- `vA_abs_dz` (src/evolutors.cpp:17, 67) and `dvadz` (src/evolutors.cpp:129) are computed but never used. They are left out, and so is the `v_A` field.
- `compute_dfdz` and `compute_D_zz`: their code is not part of this model. They are given as functions from grid to grid that keep the grid shape.
- Floating point: values are real numbers. There is no rounding, NaN or infinity.
- `size_t`/`int` conversions: sizes are naturals. A size below 3 (height) or 2 (momentum) would wrap or throw in the code; the solvers require at least that many nodes instead.
- The calls commented out in evolve.cpp:101 and 104 (`evolve_f_in_p`, the advective wave update) are not part of the loop. `evolve_f_in_p` is modelled as an operation of its own.
- The wave ceiling commented out at src/evolutors.cpp:178 is not modelled.
- `test_courant_conditions` and the setup code that fills the fields are outside the modelled core.
- Engine.Waves.Evolve: requires dt ≥ 0, source_tdecay > 0, z_size ≥ 3, dz ≠ 0 and dump_counter > 0. These keep t + t0 ≠ 0 and the modulus and the stencil divisions defined. The code does not check them.
- Engine.Waves.EvolveFInP: requires p_size ≥ 2, and below the top bin non-zero momenta with p(ip+1) ≠ p(ip). This keeps the divisions by p(ip) and by p(ip+1) − p(ip) defined.
- Engine.Waves.TestTotalEnergy: requires t + t0 ≠ 0 for the division in the injected energy.
- Engine.Waves.MomentumNodeCoefficients: dp_dt is declared as a 2-D grid (include/waves.h:103), but src/evolutors.cpp:138-139 reads it with the single index ip or ip+1. The grid class that maps a single index to a cell is not part of this model. The model assumes the loss rate depends on momentum only, and reads entry ip of a per-momentum vector.

## Findings

| source | as written | input that shows it | evidently intended | confidence | as-written member | corrected member |
|---|---|---|---|---|---|---|
| src/evolutors.cpp:173 | `factor_damping * (par.do_kolmogorov) ? k^1.5·√W : k²·W` parses as `(factor_damping·do_kolmogorov) ? k^1.5·√W : k²·W`, so factor_damping only picks the branch and never scales the rate | factor_damping = 0, do_kolmogorov = true, k = 1, W = 1: the code damps at rate 1 where the intended rate is 0 | `factor_damping · (do_kolmogorov ? k^1.5·√W : k²·W)` | not executed | Evolutors.DampingAsWrittenCounterexample | Evolutors.WaveNoGrowth |
