/** The side-effect-free diagnostics of evolve.cpp: the energy integral of a
    field over momentum and height, the injected energy of a decaying source,
    and the leak of CRs through the borders of the grid. */
module Diagnostics {
  import opened Units
  import opened Grids

  /** R = 2 pc, the radius of the reference area of the planar geometry. */
  const ReferenceRadius: real := 2.0 * Parsec

  // ---------------------------------------------------------------------------
  // Energy integral

  /** The integrand of one momentum bin: p³·v·(p·c). */
  function MomentumTerm(p: real, v: real): real
  {
    p * p * p * v * (p * CLight)
  }

  /** A column of g exists at height iz in every momentum row. */
  ghost predicate HasColumn(g: seq<seq<real>>, iz: nat)
  {
    forall i | 0 <= i < |g| :: iz < |g[i]|
  }

  /** Σ over the first k momentum bins of MomentumTerm(p(ip), g(ip, iz)), in
      loop order. */
  function MomentumSum(p: seq<real>, g: seq<seq<real>>, iz: nat, k: nat): real
    requires k <= |p| && k <= |g| && HasColumn(g, iz)
  {
    if k == 0 then 0.0 else MomentumSum(p, g, iz, k - 1) + MomentumTerm(p[k - 1], g[k - 1][iz])
  }

  /** The height weight of one momentum integral: z² in 3D, 1 in 1D. */
  function HeightWeight(z: seq<real>, iz: nat, do3D: bool): real
    requires iz < |z|
  {
    if do3D then z[iz] * z[iz] else 1.0
  }

  /** Σ over the first m heights of the weighted momentum integral, which
      stops one bin short of the last momentum bin. */
  function HeightSum(p: seq<real>, z: seq<real>, g: seq<seq<real>>, do3D: bool, m: nat): real
    requires |p| >= 1 && IsGrid(g, |p|, |z|) && m <= |z|
  {
    if m == 0 then 0.0
    else HeightSum(p, z, g, do3D, m - 1) + HeightWeight(z, m - 1, do3D) * MomentumSum(p, g, m - 1, |p| - 1)
  }

  /** (4π)²·dz·dlnp in 3D, 4π²·R²·dz·dlnp in 1D. */
  function VolumeFactor(do3D: bool, dz: real, dlnp: real): real
  {
    if do3D then (4.0 * Pi) * (4.0 * Pi) * dz * dlnp
    else 4.0 * (Pi * Pi) * (ReferenceRadius * ReferenceRadius) * dz * dlnp
  }

  /** The energy integral of a field g over the whole grid. */
  function EnergyIntegral(p: seq<real>, z: seq<real>, g: seq<seq<real>>, do3D: bool, dz: real, dlnp: real): real
    requires |p| >= 1 && IsGrid(g, |p|, |z|)
  {
    HeightSum(p, z, g, do3D, |z|) * VolumeFactor(do3D, dz, dlnp)
  }

  // ---------------------------------------------------------------------------
  // Properties of the energy integral

  /** Two fields agree on every momentum bin below the last one. */
  ghost predicate AgreeBelowLastBin(g1: seq<seq<real>>, g2: seq<seq<real>>, rows: nat, cols: nat)
  {
    IsGrid(g1, rows, cols) && IsGrid(g2, rows, cols) &&
    forall ip, iz | 0 <= ip < rows - 1 && 0 <= iz < cols :: g1[ip][iz] == g2[ip][iz]
  }

  lemma {:induction false} MomentumSumFrame(p: seq<real>, z: seq<real>, g1: seq<seq<real>>, g2: seq<seq<real>>, iz: nat, k: nat)
    requires AgreeBelowLastBin(g1, g2, |p|, |z|) && iz < |z| && k < |p|
    ensures MomentumSum(p, g1, iz, k) == MomentumSum(p, g2, iz, k)
  {
    if k > 0 {
      MomentumSumFrame(p, z, g1, g2, iz, k - 1);
      assert g1[k - 1][iz] == g2[k - 1][iz];
    }
  }

  lemma {:induction false} HeightSumFrame(p: seq<real>, z: seq<real>, g1: seq<seq<real>>, g2: seq<seq<real>>, do3D: bool, m: nat)
    requires |p| >= 1 && AgreeBelowLastBin(g1, g2, |p|, |z|) && m <= |z|
    ensures HeightSum(p, z, g1, do3D, m) == HeightSum(p, z, g2, do3D, m)
  {
    if m > 0 {
      HeightSumFrame(p, z, g1, g2, do3D, m - 1);
      MomentumSumFrame(p, z, g1, g2, m - 1, |p| - 1);
    }
  }

  /** The integral never reads the last momentum bin: fields that agree on
      every other bin have the same energy. */
  lemma EnergyIgnoresLastBin(p: seq<real>, z: seq<real>, g1: seq<seq<real>>, g2: seq<seq<real>>, do3D: bool, dz: real, dlnp: real)
    requires |p| >= 1 && AgreeBelowLastBin(g1, g2, |p|, |z|)
    ensures EnergyIntegral(p, z, g1, do3D, dz, dlnp) == EnergyIntegral(p, z, g2, do3D, dz, dlnp)
  {
    HeightSumFrame(p, z, g1, g2, do3D, |z|);
  }

  /** x·y >= 0 for x, y >= 0. */
  lemma ProductNonNegative(x: real, y: real)
    requires x >= 0.0 && y >= 0.0
    ensures x * y >= 0.0
  {
  }

  lemma SquareNonNegative(x: real)
    ensures x * x >= 0.0
  {
    if x < 0.0 {
      ProductNonNegative(-x, -x);
      assert (-x) * (-x) == x * x;
    } else {
      ProductNonNegative(x, x);
    }
  }

  lemma MomentumTermNonNegative(p: real, v: real)
    requires p >= 0.0 && v >= 0.0
    ensures MomentumTerm(p, v) >= 0.0
  {
    ProductNonNegative(p, p);
    ProductNonNegative(p * p, p);
    ProductNonNegative(p * p * p, v);
    ProductNonNegative(p, CLight);
    ProductNonNegative(p * p * p * v, p * CLight);
  }

  /** Every momentum is non-negative and every cell of g is non-negative. */
  ghost predicate NonNegativeField(p: seq<real>, g: seq<seq<real>>, cols: nat)
  {
    IsGrid(g, |p|, cols) &&
    (forall ip | 0 <= ip < |p| :: p[ip] >= 0.0) &&
    (forall ip, iz | 0 <= ip < |p| && 0 <= iz < cols :: g[ip][iz] >= 0.0)
  }

  lemma {:induction false} MomentumSumNonNegative(p: seq<real>, z: seq<real>, g: seq<seq<real>>, iz: nat, k: nat)
    requires NonNegativeField(p, g, |z|) && iz < |z| && k <= |p|
    ensures MomentumSum(p, g, iz, k) >= 0.0
  {
    if k > 0 {
      MomentumSumNonNegative(p, z, g, iz, k - 1);
      MomentumTermNonNegative(p[k - 1], g[k - 1][iz]);
    }
  }

  lemma {:induction false} HeightSumNonNegative(p: seq<real>, z: seq<real>, g: seq<seq<real>>, do3D: bool, m: nat)
    requires |p| >= 1 && NonNegativeField(p, g, |z|) && m <= |z|
    ensures HeightSum(p, z, g, do3D, m) >= 0.0
  {
    if m > 0 {
      HeightSumNonNegative(p, z, g, do3D, m - 1);
      MomentumSumNonNegative(p, z, g, m - 1, |p| - 1);
      SquareNonNegative(z[m - 1]);
      ProductNonNegative(HeightWeight(z, m - 1, do3D), MomentumSum(p, g, m - 1, |p| - 1));
    }
  }

  lemma VolumeFactorNonNegative(do3D: bool, dz: real, dlnp: real)
    requires dz >= 0.0 && dlnp >= 0.0
    ensures VolumeFactor(do3D, dz, dlnp) >= 0.0
  {
    var c := if do3D then (4.0 * Pi) * (4.0 * Pi) else 4.0 * (Pi * Pi) * (ReferenceRadius * ReferenceRadius);
    assert c > 0.0;
    ProductNonNegative(c, dz);
    ProductNonNegative(c * dz, dlnp);
  }

  /** A non-negative distribution on non-negative momenta carries
      non-negative energy (for non-negative dz and dlnp). */
  lemma EnergyNonNegative(p: seq<real>, z: seq<real>, g: seq<seq<real>>, do3D: bool, dz: real, dlnp: real)
    requires |p| >= 1 && NonNegativeField(p, g, |z|) && dz >= 0.0 && dlnp >= 0.0
    ensures EnergyIntegral(p, z, g, do3D, dz, dlnp) >= 0.0
  {
    HeightSumNonNegative(p, z, g, do3D, |z|);
    VolumeFactorNonNegative(do3D, dz, dlnp);
    ProductNonNegative(HeightSum(p, z, g, do3D, |z|), VolumeFactor(do3D, dz, dlnp));
  }

  /** Every cell below the last momentum bin is zero. */
  ghost predicate EmptyBelowLastBin(g: seq<seq<real>>, rows: nat, cols: nat)
  {
    IsGrid(g, rows, cols) && forall ip, iz | 0 <= ip < rows - 1 && 0 <= iz < cols :: g[ip][iz] == 0.0
  }

  lemma {:induction false} MomentumSumZero(p: seq<real>, z: seq<real>, g: seq<seq<real>>, iz: nat, k: nat)
    requires EmptyBelowLastBin(g, |p|, |z|) && iz < |z| && k < |p|
    ensures MomentumSum(p, g, iz, k) == 0.0
  {
    if k > 0 {
      MomentumSumZero(p, z, g, iz, k - 1);
      assert g[k - 1][iz] == 0.0;
    }
  }

  lemma {:induction false} HeightSumZero(p: seq<real>, z: seq<real>, g: seq<seq<real>>, do3D: bool, m: nat)
    requires |p| >= 1 && EmptyBelowLastBin(g, |p|, |z|) && m <= |z|
    ensures HeightSum(p, z, g, do3D, m) == 0.0
  {
    if m > 0 {
      HeightSumZero(p, z, g, do3D, m - 1);
      MomentumSumZero(p, z, g, m - 1, |p| - 1);
    }
  }

  /** No particles below the last bin, no energy; whatever the last bin
      holds. */
  lemma EnergyOfEmptyField(p: seq<real>, z: seq<real>, g: seq<seq<real>>, do3D: bool, dz: real, dlnp: real)
    requires |p| >= 1 && EmptyBelowLastBin(g, |p|, |z|)
    ensures EnergyIntegral(p, z, g, do3D, dz, dlnp) == 0.0
  {
    HeightSumZero(p, z, g, do3D, |z|);
  }

  /** g agrees with g1 + g2 on every momentum bin below the last one. */
  ghost predicate SumOf(g: seq<seq<real>>, g1: seq<seq<real>>, g2: seq<seq<real>>, rows: nat, cols: nat)
  {
    IsGrid(g, rows, cols) && IsGrid(g1, rows, cols) && IsGrid(g2, rows, cols) &&
    forall ip, iz | 0 <= ip < rows - 1 && 0 <= iz < cols :: g[ip][iz] == g1[ip][iz] + g2[ip][iz]
  }

  lemma MomentumTermAdds(p: real, v1: real, v2: real)
    ensures MomentumTerm(p, v1 + v2) == MomentumTerm(p, v1) + MomentumTerm(p, v2)
  {
  }

  lemma {:induction false} MomentumSumAdds(p: seq<real>, z: seq<real>, g: seq<seq<real>>, g1: seq<seq<real>>, g2: seq<seq<real>>, iz: nat, k: nat)
    requires SumOf(g, g1, g2, |p|, |z|) && iz < |z| && k < |p|
    ensures MomentumSum(p, g, iz, k) == MomentumSum(p, g1, iz, k) + MomentumSum(p, g2, iz, k)
  {
    if k > 0 {
      MomentumSumAdds(p, z, g, g1, g2, iz, k - 1);
      assert g[k - 1][iz] == g1[k - 1][iz] + g2[k - 1][iz];
      MomentumTermAdds(p[k - 1], g1[k - 1][iz], g2[k - 1][iz]);
    }
  }

  lemma {:induction false} HeightSumAdds(p: seq<real>, z: seq<real>, g: seq<seq<real>>, g1: seq<seq<real>>, g2: seq<seq<real>>, do3D: bool, m: nat)
    requires |p| >= 1 && SumOf(g, g1, g2, |p|, |z|) && m <= |z|
    ensures HeightSum(p, z, g, do3D, m) == HeightSum(p, z, g1, do3D, m) + HeightSum(p, z, g2, do3D, m)
  {
    if m > 0 {
      HeightSumAdds(p, z, g, g1, g2, do3D, m - 1);
      MomentumSumAdds(p, z, g, g1, g2, m - 1, |p| - 1);
    }
  }

  /** The energy integral is additive: fields that add up bin by bin (on
      every bin it reads) add up in energy. */
  lemma EnergyAdds(p: seq<real>, z: seq<real>, g: seq<seq<real>>, g1: seq<seq<real>>, g2: seq<seq<real>>,
                   do3D: bool, dz: real, dlnp: real)
    requires |p| >= 1 && SumOf(g, g1, g2, |p|, |z|)
    ensures EnergyIntegral(p, z, g, do3D, dz, dlnp)
      == EnergyIntegral(p, z, g1, do3D, dz, dlnp) + EnergyIntegral(p, z, g2, do3D, dz, dlnp)
  {
    HeightSumAdds(p, z, g, g1, g2, do3D, |z|);
  }

  /** g agrees with a·g1 on every momentum bin below the last one. */
  ghost predicate ScaledBy(g: seq<seq<real>>, a: real, g1: seq<seq<real>>, rows: nat, cols: nat)
  {
    IsGrid(g, rows, cols) && IsGrid(g1, rows, cols) &&
    forall ip, iz | 0 <= ip < rows - 1 && 0 <= iz < cols :: g[ip][iz] == a * g1[ip][iz]
  }

  /** x·(y·z) = y·(x·z), and a sum scaled termwise. */
  lemma ScaleSteps(a: real, s: real, t: real, w: real)
    ensures a * s + w * (a * t) == a * (s + w * t)
    ensures (a * s) * w == a * (s * w)
  {
  }

  lemma MomentumTermScales(p: real, a: real, v: real)
    ensures MomentumTerm(p, a * v) == a * MomentumTerm(p, v)
  {
  }

  lemma {:induction false} MomentumSumScales(p: seq<real>, z: seq<real>, g: seq<seq<real>>, a: real, g1: seq<seq<real>>, iz: nat, k: nat)
    requires ScaledBy(g, a, g1, |p|, |z|) && iz < |z| && k < |p|
    ensures MomentumSum(p, g, iz, k) == a * MomentumSum(p, g1, iz, k)
  {
    if k > 0 {
      MomentumSumScales(p, z, g, a, g1, iz, k - 1);
      assert g[k - 1][iz] == a * g1[k - 1][iz];
      MomentumTermScales(p[k - 1], a, g1[k - 1][iz]);
      ScaleSteps(a, MomentumSum(p, g1, iz, k - 1), MomentumTerm(p[k - 1], g1[k - 1][iz]), 1.0);
    }
  }

  lemma {:induction false} HeightSumScales(p: seq<real>, z: seq<real>, g: seq<seq<real>>, a: real, g1: seq<seq<real>>, do3D: bool, m: nat)
    requires |p| >= 1 && ScaledBy(g, a, g1, |p|, |z|) && m <= |z|
    ensures HeightSum(p, z, g, do3D, m) == a * HeightSum(p, z, g1, do3D, m)
  {
    if m > 0 {
      HeightSumScales(p, z, g, a, g1, do3D, m - 1);
      MomentumSumScales(p, z, g, a, g1, m - 1, |p| - 1);
      ScaleSteps(a, HeightSum(p, z, g1, do3D, m - 1), MomentumSum(p, g1, m - 1, |p| - 1), HeightWeight(z, m - 1, do3D));
    }
  }

  /** The energy integral is homogeneous: scaling the field scales its
      energy. With EnergyAdds, the integral is linear in the field. */
  lemma EnergyScales(p: seq<real>, z: seq<real>, g: seq<seq<real>>, a: real, g1: seq<seq<real>>,
                     do3D: bool, dz: real, dlnp: real)
    requires |p| >= 1 && ScaledBy(g, a, g1, |p|, |z|)
    ensures EnergyIntegral(p, z, g, do3D, dz, dlnp) == a * EnergyIntegral(p, z, g1, do3D, dz, dlnp)
  {
    HeightSumScales(p, z, g, a, g1, do3D, |z|);
    ScaleSteps(a, HeightSum(p, z, g1, do3D, |z|), 0.0, VolumeFactor(do3D, dz, dlnp));
  }

  // ---------------------------------------------------------------------------
  // Injected energy

  /** The energy injected up to time t by a source of present luminosity L
      that decays on the time scale t0: L·(t·t0/(t + t0)). */
  function InjectedEnergy(luminosity: real, t: real, t0: real): real
    requires t + t0 != 0.0
  {
    luminosity * (t * t0 / (t + t0))
  }

  /** x·s <= y·s with s > 0 gives x <= y. */
  lemma CancelPositive(x: real, y: real, s: real)
    requires s > 0.0 && x * s <= y * s
    ensures x <= y
  {
  }

  /** t·t0/(t + t0) lies between 0 and min(t, t0) for t >= 0 < t0. */
  lemma EffectiveTimeBounds(t: real, t0: real)
    requires t >= 0.0 && t0 > 0.0
    ensures 0.0 <= t * t0 / (t + t0) <= t
    ensures t * t0 / (t + t0) <= t0
  {
    var s := t + t0;
    var e := t * t0 / s;
    ProductNonNegative(t, t0);
    assert e * s == t * t0;
    ProductNonNegative(t, t);
    ProductNonNegative(t0, t0);
    assert t * s == t * t + t * t0;
    assert t0 * s == t0 * t + t0 * t0;
    CancelPositive(e, t, s);
    CancelPositive(e, t0, s);
  }

  /** t·t0/(t + t0) grows with t. */
  lemma EffectiveTimeMonotone(t1: real, t2: real, t0: real)
    requires 0.0 <= t1 <= t2 && t0 > 0.0
    ensures t1 * t0 / (t1 + t0) <= t2 * t0 / (t2 + t0)
  {
    var s1, s2 := t1 + t0, t2 + t0;
    var e1, e2 := t1 * t0 / s1, t2 * t0 / s2;
    assert e1 * s1 == t1 * t0 && e2 * s2 == t2 * t0;
    // e1 <= e2  <=>  t1·t0·s2 <= t2·t0·s1  <=>  t1·t0² <= t2·t0²
    assert t1 * t0 * s2 - t2 * t0 * s1 == (t1 - t2) * (t0 * t0);
    ProductNonNegative(t2 - t1, t0 * t0);
    assert t1 * t0 * s2 <= t2 * t0 * s1;
    assert s1 * s2 > 0.0;
    assert e1 * (s1 * s2) == t1 * t0 * s2;
    assert e2 * (s1 * s2) == t2 * t0 * s1;
    CancelPositive(e1, e2, s1 * s2);
  }

  /** The injected energy of a non-negative luminosity is zero at t = 0, never
      negative, never more than L·t (the constant-source value) nor L·t0 (the
      total over the whole decay), and grows with t. */
  lemma InjectedEnergyBounds(luminosity: real, t: real, t0: real)
    requires luminosity >= 0.0 && t >= 0.0 && t0 > 0.0
    ensures InjectedEnergy(luminosity, 0.0, t0) == 0.0
    ensures 0.0 <= InjectedEnergy(luminosity, t, t0) <= luminosity * t
    ensures InjectedEnergy(luminosity, t, t0) <= luminosity * t0
    ensures forall u | 0.0 <= u <= t :: InjectedEnergy(luminosity, u, t0) <= InjectedEnergy(luminosity, t, t0)
  {
    var e := t * t0 / (t + t0);
    EffectiveTimeBounds(t, t0);
    ProductNonNegative(luminosity, e);
    ProductNonNegative(luminosity, t - e);
    ProductNonNegative(luminosity, t0 - e);
    forall u | 0.0 <= u <= t
      ensures InjectedEnergy(luminosity, u, t0) <= InjectedEnergy(luminosity, t, t0)
    {
      EffectiveTimeMonotone(u, t, t0);
      ProductNonNegative(luminosity, e - u * t0 / (u + t0));
    }
  }

  // ---------------------------------------------------------------------------
  // Leak through the borders

  /** Σ over the first k momentum rows of |g(ip, z_size-1)| + |g(ip, 0)|: the
      two height faces. */
  function FaceSum(g: seq<seq<real>>, cols: nat, k: nat): real
    requires cols >= 1 && k <= |g| && forall i | 0 <= i < |g| :: |g[i]| == cols
  {
    if k == 0 then 0.0 else FaceSum(g, cols, k - 1) + Abs(g[k - 1][cols - 1]) + Abs(g[k - 1][0])
  }

  /** Σ over the first k heights of |g(p_size-1, iz)|: the top momentum edge. */
  function EdgeSum(g: seq<seq<real>>, cols: nat, k: nat): real
    requires |g| >= 1 && k <= cols && forall i | 0 <= i < |g| :: |g[i]| == cols
  {
    if k == 0 then 0.0 else EdgeSum(g, cols, k - 1) + Abs(g[|g| - 1][k - 1])
  }

  /** The total |f| on the border of the grid: both height faces, then the
      top momentum edge (its two corners are counted twice). */
  function BorderLeak(g: seq<seq<real>>, rows: nat, cols: nat): real
    requires rows >= 1 && cols >= 1 && IsGrid(g, rows, cols)
  {
    FaceSum(g, cols, rows) + EdgeSum(g, cols, cols)
  }

  /** Every cell on the two height faces and on the top momentum edge is 0. */
  ghost predicate BorderEmpty(g: seq<seq<real>>, rows: nat, cols: nat)
    requires rows >= 1 && cols >= 1 && IsGrid(g, rows, cols)
  {
    (forall ip | 0 <= ip < rows :: g[ip][0] == 0.0 && g[ip][cols - 1] == 0.0) &&
    (var top := g[rows - 1]; forall iz | 0 <= iz < cols :: top[iz] == 0.0)
  }

  lemma {:induction false} FaceSumZero(g: seq<seq<real>>, cols: nat, k: nat)
    requires cols >= 1 && k <= |g| && forall i | 0 <= i < |g| :: |g[i]| == cols
    ensures FaceSum(g, cols, k) >= 0.0
    ensures FaceSum(g, cols, k) == 0.0 <==> forall ip | 0 <= ip < k :: g[ip][0] == 0.0 && g[ip][cols - 1] == 0.0
  {
    if k > 0 {
      FaceSumZero(g, cols, k - 1);
    }
  }

  lemma {:induction false} EdgeSumZero(g: seq<seq<real>>, cols: nat, k: nat)
    requires |g| >= 1 && k <= cols && forall i | 0 <= i < |g| :: |g[i]| == cols
    ensures EdgeSum(g, cols, k) >= 0.0
    ensures var top := g[|g| - 1]; EdgeSum(g, cols, k) == 0.0 <==> forall iz | 0 <= iz < k :: top[iz] == 0.0
  {
    if k > 0 {
      EdgeSumZero(g, cols, k - 1);
    }
  }

  /** The leak is never negative, and it is zero exactly when the border is
      empty. */
  lemma BorderLeakZero(g: seq<seq<real>>, rows: nat, cols: nat)
    requires rows >= 1 && cols >= 1 && IsGrid(g, rows, cols)
    ensures BorderLeak(g, rows, cols) >= 0.0
    ensures BorderLeak(g, rows, cols) == 0.0 <==> BorderEmpty(g, rows, cols)
  {
    FaceSumZero(g, cols, rows);
    EdgeSumZero(g, cols, cols);
  }
}
