/**
 * The macroscopic velocity-density relation v(rho) of `VelocityFunction`:
 * free flow at `vmax` up to the critical density, a congested branch
 * `K1 * (rho^-K2 - rhoMax^-K2)^K3` strictly between the critical and the jam
 * density, and standstill from the jam density on; with its derivative, the
 * flux `v(rho) * rho` and the flux derivative `v(rho) + rho * v'(rho)`.
 *
 * Real-exponent powers and the natural logarithm are not available on
 * Dafny's `real`; they enter the model as function values (`pow`, `ln`),
 * about which nothing is assumed.
 */
module Velocity {
  import opened Wrappers

  /** The exception Python raises while constructing (a division by zero). */
  datatype Error = ZeroDivision

  /** The critical density used when none is supplied. */
  const DefaultCriticalDensity: real := 0.175

  /**
   * A velocity function as its constructor leaves it: the five given
   * parameters, the derived jam density `rhoMax`, the critical density
   * `rhoC`, the continuity exponent `k3`, and the power function `pow`
   * (Python's `**` on reals) that the congested branch is evaluated with.
   */
  datatype VelocityFunction = VelocityFunction(
    vmax: real, dmin: real, lcar: real, k1: real, k2: real,
    rhoMax: real, rhoC: real, k3: real,
    pow: (real, real) -> real)

  /** The critical density: the supplied one, else the default. */
  function CriticalDensity(rhoC: Option<real>): real
  {
    if rhoC.Some? then rhoC.value else DefaultCriticalDensity
  }

  /** `rhoC^-K2 - rhoMax^-K2`, whose logarithm is the denominator of `k3`. */
  function ContinuityBase(pow: (real, real) -> real, rhoC: real, rhoMax: real, k2: real): real
  {
    pow(rhoC, -k2) - pow(rhoMax, -k2)
  }

  /**
   * Whether building `K3` divides by zero in plain Python arithmetic:
   * `vmax / K1` with `K1 = 0`, or a zero density raised to the negative
   * power `-K2` (`K2 > 0`), for the critical or the jam density.
   */
  predicate ContinuityRaises(k1: real, k2: real, rhoC: real, rhoMax: real)
  {
    k1 == 0.0 || (k2 > 0.0 && (rhoC == 0.0 || rhoMax == 0.0))
  }

  /**
   * The constructor. `rhoMax = lcar / (lcar + dmin)` and `vmax / K1` are
   * Python divisions, which raise on a zero divisor, and so does a zero
   * float raised to a negative power; the quotient of the two logarithms
   * is a numpy division, which does not raise but yields an infinity or
   * NaN, so a zero logarithm in the denominator is excluded.
   * `k3` solves the continuity equation `K1 * base^k3 = vmax` at `rhoC`,
   * stated here in its logarithmic form.
   */
  function NewVelocityFunction(vmax: real, dmin: real, lcar: real, k1: real, k2: real,
                               rhoC: Option<real>,
                               pow: (real, real) -> real, ln: real -> real)
    : (r: Result<VelocityFunction, Error>)
    requires lcar + dmin != 0.0 && !ContinuityRaises(k1, k2, CriticalDensity(rhoC), lcar / (lcar + dmin)) ==>
               ln(ContinuityBase(pow, CriticalDensity(rhoC), lcar / (lcar + dmin), k2)) != 0.0
    ensures r.Failure? <==>
              || lcar + dmin == 0.0 || k1 == 0.0
              || (k2 > 0.0 && (CriticalDensity(rhoC) == 0.0 || lcar == 0.0))
    ensures r.Success? ==>
              && r.value.vmax == vmax && r.value.dmin == dmin && r.value.lcar == lcar
              && r.value.k1 == k1 && r.value.k2 == k2 && r.value.pow == pow
    ensures r.Success? ==> r.value.rhoMax * (lcar + dmin) == lcar
    ensures r.Success? && lcar > 0.0 && dmin > 0.0 ==> 0.0 < r.value.rhoMax < 1.0
    ensures r.Success? && rhoC.Some? ==> r.value.rhoC == rhoC.value
    ensures r.Success? && rhoC.None? ==> r.value.rhoC == 0.175
    ensures r.Success? ==>
              r.value.k3 * ln(ContinuityBase(pow, r.value.rhoC, r.value.rhoMax, k2)) == ln(vmax / k1)
  {
    if lcar + dmin == 0.0 then Failure(ZeroDivision)
    else
      var rhoMax := lcar / (lcar + dmin);
      var c := CriticalDensity(rhoC);
      assert rhoMax == 0.0 <==> lcar == 0.0 by {
        assert rhoMax * (lcar + dmin) == lcar;
      }
      if ContinuityRaises(k1, k2, c, rhoMax) then Failure(ZeroDivision)
      else
        var k3 := ln(vmax / k1) / ln(ContinuityBase(pow, c, rhoMax, k2));
        assert lcar > 0.0 && dmin > 0.0 ==> rhoMax < 1.0 by {
          if lcar > 0.0 && dmin > 0.0 {
            assert rhoMax * (lcar + dmin) == lcar;
          }
        }
        Success(VelocityFunction(vmax, dmin, lcar, k1, k2, rhoMax, c, k3, pow))
  }

  /** Region 1 of the evaluation: the free-flow mask `rho <= rhoC`. */
  predicate FreeFlow(f: VelocityFunction, rho: real)
  {
    rho <= f.rhoC
  }

  /** Region 2: the congested mask `rhoC < rho < rhoMax`. */
  predicate Congested(f: VelocityFunction, rho: real)
  {
    f.rhoC < rho < f.rhoMax
  }

  /** Region 3: the standstill mask `rho >= rhoMax`. */
  predicate Jammed(f: VelocityFunction, rho: real)
  {
    rho >= f.rhoMax
  }

  /** `rho^-K2 - rhoMax^-K2`, the base of the congested branch. */
  function CongestedBase(f: VelocityFunction, rho: real): real
  {
    f.pow(rho, -f.k2) - f.pow(f.rhoMax, -f.k2)
  }

  /** The congested branch `K1 * (rho^-K2 - rhoMax^-K2)^K3`. */
  function CongestedVelocity(f: VelocityFunction, rho: real): real
  {
    f.k1 * f.pow(CongestedBase(f, rho), f.k3)
  }

  /** The chain-rule derivative of the congested branch. */
  function CongestedSlope(f: VelocityFunction, rho: real): real
  {
    f.k1 * f.k3 * f.pow(CongestedBase(f, rho), f.k3 - 1.0) * (-f.k2) * f.pow(rho, -f.k2 - 1.0)
  }

  /**
   * The velocity at one density, standstill taking precedence: every
   * density lies in exactly one of the three cases below.
   */
  function VelocityAt(f: VelocityFunction, rho: real): (v: real)
    ensures Jammed(f, rho) ==> v == 0.0
    ensures FreeFlow(f, rho) && !Jammed(f, rho) ==> v == f.vmax
    ensures Congested(f, rho) ==> v == CongestedVelocity(f, rho)
  {
    if Jammed(f, rho) then 0.0
    else if FreeFlow(f, rho) then f.vmax
    else CongestedVelocity(f, rho)
  }

  /** The derivative at one density: the branch derivative inside region 2 only. */
  function SlopeAt(f: VelocityFunction, rho: real): (d: real)
    ensures !Congested(f, rho) ==> d == 0.0
    ensures Congested(f, rho) ==> d == CongestedSlope(f, rho)
  {
    if Congested(f, rho) then CongestedSlope(f, rho) else 0.0
  }

  /**
   * The flux `v(rho) * rho` at one density: zero from the jam density on,
   * the congested branch times the density strictly between the two
   * densities.
   */
  function FluxAt(f: VelocityFunction, rho: real): (q: real)
    ensures Jammed(f, rho) ==> q == 0.0
    ensures Congested(f, rho) ==> q == CongestedVelocity(f, rho) * rho
  {
    VelocityAt(f, rho) * rho
  }

  /**
   * The flux derivative `v(rho) + rho * v'(rho)` at one density: zero from
   * the jam density on, and the product rule on the congested branch.
   */
  function FluxSlopeAt(f: VelocityFunction, rho: real): (q: real)
    ensures Jammed(f, rho) ==> q == 0.0
    ensures Congested(f, rho) ==> q == CongestedVelocity(f, rho) + rho * CongestedSlope(f, rho)
  {
    VelocityAt(f, rho) + rho * SlopeAt(f, rho)
  }

  /** What the array holds after the region-1 write into the zero array. */
  function AfterFreeFlowWrite(f: VelocityFunction, rho: real): real
  {
    if FreeFlow(f, rho) then f.vmax else 0.0
  }

  /** What the array holds after the region-2 write. */
  function AfterCongestedWrite(f: VelocityFunction, rho: real): real
  {
    if Congested(f, rho) then CongestedVelocity(f, rho) else AfterFreeFlowWrite(f, rho)
  }

  /**
   * `__call__`: a zero array overwritten by the three masks in order
   * (free flow, congested, standstill). The region-2 write is skipped when
   * no element is congested, as the source's `np.any` guard does. The
   * result is the pointwise velocity: elementwise, same length, and the
   * last write (standstill) wins where the masks overlap.
   */
  method Evaluate(f: VelocityFunction, rho: seq<real>) returns (v: seq<real>)
    ensures |v| == |rho|
    ensures forall k :: 0 <= k < |rho| ==> v[k] == VelocityAt(f, rho[k])
  {
    var n := |rho|;
    var a := new real[n](_ => 0.0);
    for k := 0 to n
      invariant forall j :: 0 <= j < k ==> a[j] == AfterFreeFlowWrite(f, rho[j])
      invariant forall j :: k <= j < n ==> a[j] == 0.0
    {
      if FreeFlow(f, rho[k]) {
        a[k] := f.vmax;
      }
    }
    if exists k :: 0 <= k < n && Congested(f, rho[k]) {
      for k := 0 to n
        invariant forall j :: 0 <= j < k ==> a[j] == AfterCongestedWrite(f, rho[j])
        invariant forall j :: k <= j < n ==> a[j] == AfterFreeFlowWrite(f, rho[j])
      {
        if Congested(f, rho[k]) {
          a[k] := CongestedVelocity(f, rho[k]);
        }
      }
    }
    for k := 0 to n
      invariant forall j :: 0 <= j < k ==> a[j] == VelocityAt(f, rho[j])
      invariant forall j :: k <= j < n ==> a[j] == AfterCongestedWrite(f, rho[j])
    {
      if Jammed(f, rho[k]) {
        a[k] := 0.0;
      }
    }
    v := a[..];
  }

  /**
   * `derivative`: a zero array overwritten on the congested mask only
   * (skipped when that mask is empty).
   */
  method Derivative(f: VelocityFunction, rho: seq<real>) returns (dv: seq<real>)
    ensures |dv| == |rho|
    ensures forall k :: 0 <= k < |rho| ==> dv[k] == SlopeAt(f, rho[k])
  {
    var n := |rho|;
    var a := new real[n](_ => 0.0);
    if exists k :: 0 <= k < n && Congested(f, rho[k]) {
      for k := 0 to n
        invariant forall j :: 0 <= j < k ==> a[j] == SlopeAt(f, rho[j])
        invariant forall j :: k <= j < n ==> a[j] == 0.0
      {
        if Congested(f, rho[k]) {
          a[k] := CongestedSlope(f, rho[k]);
        }
      }
    }
    dv := a[..];
  }

  /** `flux`: the evaluated velocities multiplied elementwise by the densities. */
  method Flux(f: VelocityFunction, rho: seq<real>) returns (q: seq<real>)
    ensures |q| == |rho|
    ensures forall k :: 0 <= k < |rho| ==> q[k] == FluxAt(f, rho[k])
  {
    var v := Evaluate(f, rho);
    q := seq(|rho|, k requires 0 <= k < |rho| => v[k] * rho[k]);
  }

  /** `flux_derivative`: velocity plus density times derivative, elementwise. */
  method FluxDerivative(f: VelocityFunction, rho: seq<real>) returns (q: seq<real>)
    ensures |q| == |rho|
    ensures forall k :: 0 <= k < |rho| ==> q[k] == FluxSlopeAt(f, rho[k])
  {
    var v := Evaluate(f, rho);
    var dv := Derivative(f, rho);
    q := seq(|rho|, k requires 0 <= k < |rho| => v[k] + rho[k] * dv[k]);
  }

  /** The flux vanishes on an empty road and from the jam density on. */
  lemma FluxVanishes(f: VelocityFunction, rho: real)
    ensures FluxAt(f, 0.0) == 0.0
    ensures Jammed(f, rho) ==> FluxAt(f, rho) == 0.0
  {
  }

  /** In free flow the flux is `vmax * rho`. */
  lemma FreeFlowFlux(f: VelocityFunction, rho: real)
    requires FreeFlow(f, rho) && !Jammed(f, rho)
    ensures FluxAt(f, rho) == f.vmax * rho
  {
  }

  /** Outside the open congested interval the flux derivative is the velocity. */
  lemma FluxSlopeOutsideCongestion(f: VelocityFunction, rho: real)
    requires !Congested(f, rho)
    ensures FluxSlopeAt(f, rho) == VelocityAt(f, rho)
  {
  }

  /**
   * An empty road flows at `vmax`, and the jam density itself is at a
   * standstill, for every velocity function built from a positive car
   * length and gap, a non-zero `K1`, and a non-negative critical density
   * that is not zero when `K2 > 0`.
   */
  lemma BoundaryVelocities(vmax: real, dmin: real, lcar: real, k1: real, k2: real,
                           rhoC: Option<real>, pow: (real, real) -> real, ln: real -> real)
    requires lcar > 0.0 && dmin > 0.0 && k1 != 0.0
    requires ln(ContinuityBase(pow, CriticalDensity(rhoC), lcar / (lcar + dmin), k2)) != 0.0
    requires rhoC.Some? ==> rhoC.value >= 0.0 && (k2 > 0.0 ==> rhoC.value != 0.0)
    ensures var r := NewVelocityFunction(vmax, dmin, lcar, k1, k2, rhoC, pow, ln);
            && r.Success?
            && VelocityAt(r.value, 0.0) == vmax
            && VelocityAt(r.value, r.value.rhoMax) == 0.0
            && FluxAt(r.value, r.value.rhoMax) == 0.0
  {
    var r := NewVelocityFunction(vmax, dmin, lcar, k1, k2, rhoC, pow, ln);
    assert 0.0 < r.value.rhoMax;
  }

  /**
   * `vmax = 100`, `dmin = 0.01`, `lcar = 0.005`, `K1 = 80`, `K2 = 1` and
   * the default critical density give the jam density exactly 1/3, free
   * flow at densities 0.1 and 0.175, and standstill at 1/3. The density
   * 0.3333 lies just below 1/3, so it is still congested and its velocity
   * is the congested branch, not standstill.
   */
  lemma OneThirdJamDensity(pow: (real, real) -> real, ln: real -> real)
    requires ln(ContinuityBase(pow, 0.175, 1.0 / 3.0, 1.0)) != 0.0
    ensures var r := NewVelocityFunction(100.0, 0.01, 0.005, 80.0, 1.0, None, pow, ln);
            && r.Success?
            && r.value.rhoMax == 1.0 / 3.0
            && r.value.rhoC == 0.175
            && VelocityAt(r.value, 0.1) == 100.0
            && VelocityAt(r.value, 0.175) == 100.0
            && VelocityAt(r.value, 1.0 / 3.0) == 0.0
            && Congested(r.value, 0.3333)
            && VelocityAt(r.value, 0.3333) == CongestedVelocity(r.value, 0.3333)
  {
    assert 0.005 / (0.005 + 0.01) == 1.0 / 3.0;
  }

  /**
   * A zero car length, or a zero critical density, with `K2 = 1` raises:
   * the jam density (or the critical density) is 0, and `0.0 ** -1.0`
   * divides by zero.
   */
  lemma ZeroDensityPowerRaises(pow: (real, real) -> real, ln: real -> real)
    ensures NewVelocityFunction(100.0, 0.01, 0.0, 80.0, 1.0, None, pow, ln).Failure?
    ensures NewVelocityFunction(100.0, 0.01, 0.005, 80.0, 1.0, Some(0.0), pow, ln).Failure?
  {
  }
}
