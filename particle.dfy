/**
 * The particle model of an open corridor of length `L`: cars kept in
 * descending order of position, each driving at the greedy one-step
 * lookahead velocity that leaves `dmin` to the car in front, cars past
 * `L` leaving the road, and a windowed density count.
 */
module Particle {
  import opened Cars

  function Max(a: real, b: real): real
  {
    if b > a then b else a
  }

  function Min(a: real, b: real): real
  {
    if b < a then b else a
  }

  /**
   * The velocity that, after one explicit Euler step of length `dt`, leaves
   * exactly `dmin` behind a front car that moves at `frontV`.
   */
  function Unclamped(frontX: real, frontV: real, x: real, dmin: real, dt: real): real
    requires dt != 0.0
  {
    (frontX - x - dmin + frontV * dt) / dt
  }

  /**
   * The greedy law behind `compute_velocity_simple`: the unclamped value
   * cut to `[0, vmax]`. It never goes below zero; it is at most `vmax` when
   * `vmax >= 0`; without an active clamp it meets the spacing equation;
   * and whenever the unclamped value is not negative, the car ends the step
   * at least `dmin` behind the front car.
   */
  function GreedyVelocity(frontX: real, frontV: real, x: real, vmax: real, dmin: real, dt: real)
    : (r: real)
    requires dt != 0.0
    ensures r >= 0.0
    ensures vmax >= 0.0 ==> r <= vmax
    ensures 0.0 <= Unclamped(frontX, frontV, x, dmin, dt) <= vmax ==>
              r * dt == frontX - x - dmin + frontV * dt
    ensures vmax >= 0.0 && Unclamped(frontX, frontV, x, dmin, dt) >= vmax ==> r == vmax
    ensures Unclamped(frontX, frontV, x, dmin, dt) <= 0.0 ==> r == 0.0
    ensures dt > 0.0 && Unclamped(frontX, frontV, x, dmin, dt) >= 0.0 ==>
              x + r * dt <= frontX + frontV * dt - dmin
  {
    var u := Unclamped(frontX, frontV, x, dmin, dt);
    var r := Max(0.0, Min(u, vmax));
    assert u * dt == frontX - x - dmin + frontV * dt;
    assert dt > 0.0 && u >= 0.0 ==> r * dt <= u * dt by {
      if dt > 0.0 && u >= 0.0 {
        assert r <= u;
        MultiplyMonotone(r, u, dt);
      }
    }
    r
  }

  lemma MultiplyMonotone(a: real, b: real, c: real)
    requires a <= b && c >= 0.0
    ensures a * c <= b * c
  {
  }

  /**
   * The velocity the front-to-back sweep of `step` gives the car at index
   * `i`, from the pre-step positions `xs`: the front car drives at `vmax`,
   * every other car applies the greedy law to its front car's NEW velocity.
   */
  function SweptVelocity(xs: seq<real>, i: nat, vmax: real, dmin: real, dt: real): (v: real)
    requires i < |xs| && dt != 0.0
    ensures vmax >= 0.0 ==> 0.0 <= v <= vmax
  {
    if i == 0 then vmax
    else GreedyVelocity(xs[i - 1], SweptVelocity(xs, i - 1, vmax, dmin, dt), xs[i], vmax, dmin, dt)
  }

  /**
   * All velocities after the sweep, one per car: the front car's is
   * `vmax`, and with `vmax >= 0` every one lies in `[0, vmax]`.
   */
  function Sweep(xs: seq<real>, vmax: real, dmin: real, dt: real): (vs: seq<real>)
    requires dt != 0.0
    ensures |vs| == |xs|
    ensures |xs| > 0 ==> vs[0] == vmax
    ensures vmax >= 0.0 ==> forall i :: 0 <= i < |vs| ==> 0.0 <= vs[i] <= vmax
  {
    seq(|xs|, i requires 0 <= i < |xs| => SweptVelocity(xs, i, vmax, dmin, dt))
  }

  /**
   * The in-place order of the sweep: every car behind the front one gets
   * the greedy law applied to the old positions and to the NEW velocity of
   * the car ahead.
   */
  lemma SweepRecurrence(xs: seq<real>, vmax: real, dmin: real, dt: real, i: nat)
    requires dt != 0.0 && 0 < i < |xs|
    ensures var vs := Sweep(xs, vmax, dmin, dt);
            vs[i] == GreedyVelocity(xs[i - 1], vs[i - 1], xs[i], vmax, dmin, dt)
  {
  }

  /** The positions after the Euler pass `x += v * dt`, one per car. */
  function Moved(xs: seq<real>, vs: seq<real>, dt: real): (ms: seq<real>)
    requires |vs| == |xs|
    ensures |ms| == |xs|
  {
    seq(|xs|, i requires 0 <= i < |xs| => xs[i] + vs[i] * dt)
  }

  /** With a non-negative step, a car with a non-negative velocity never moves backwards. */
  lemma MovedForward(xs: seq<real>, vs: seq<real>, dt: real, i: nat)
    requires |vs| == |xs| && i < |xs| && vs[i] >= 0.0 && dt >= 0.0
    ensures Moved(xs, vs, dt)[i] >= xs[i]
  {
    MultiplyMonotone(0.0, vs[i], dt);
  }

  /** Non-increasing order. */
  ghost predicate Descending(xs: seq<real>)
  {
    forall i, j :: 0 <= i < j < |xs| ==> xs[i] >= xs[j]
  }

  lemma {:induction false} Chain(xs: seq<real>, i: nat, j: nat)
    requires forall k :: 0 < k < |xs| ==> xs[k] <= xs[k - 1]
    requires i <= j < |xs|
    ensures xs[j] <= xs[i]
    decreases j - i
  {
    if i < j {
      Chain(xs, i, j - 1);
    }
  }

  /** Each element at most its predecessor makes the whole sequence non-increasing. */
  lemma AdjacentDescending(xs: seq<real>)
    requires forall k :: 0 < k < |xs| ==> xs[k] <= xs[k - 1]
    ensures Descending(xs)
  {
    forall i, j | 0 <= i < j < |xs|
      ensures xs[i] >= xs[j]
    {
      Chain(xs, i, j);
    }
  }

  /**
   * Every car behind the front one ends the sweep with a velocity in
   * `[0, vmax]`; the front one drives at `vmax`.
   */
  lemma SweepBounds(xs: seq<real>, vmax: real, dmin: real, dt: real, i: nat)
    requires dt != 0.0 && vmax >= 0.0 && i < |xs|
    ensures 0.0 <= Sweep(xs, vmax, dmin, dt)[i] <= vmax
    ensures i == 0 ==> Sweep(xs, vmax, dmin, dt)[i] == vmax
  {
  }

  /**
   * The gap guarantee: when the unclamped value of car `i` (computed with
   * its front car's new velocity) is not negative, after the position
   * pass it is at least `dmin` behind its front car.
   */
  lemma GapAfterStep(xs: seq<real>, vmax: real, dmin: real, dt: real, i: nat)
    requires dt > 0.0 && vmax >= 0.0 && 0 < i < |xs|
    requires Unclamped(xs[i - 1], Sweep(xs, vmax, dmin, dt)[i - 1], xs[i], dmin, dt) >= 0.0
    ensures var ms := Moved(xs, Sweep(xs, vmax, dmin, dt), dt);
            ms[i] <= ms[i - 1] - dmin
  {
    var vs := Sweep(xs, vmax, dmin, dt);
    assert vs[i] == GreedyVelocity(xs[i - 1], vs[i - 1], xs[i], vmax, dmin, dt);
  }

  /**
   * The sweep and the position pass keep a descending corridor descending
   * (with a positive step, `vmax >= 0` and `dmin >= 0`): no car overtakes
   * its front car, so the list needs no re-sort after a step.
   */
  lemma StepKeepsOrder(xs: seq<real>, vmax: real, dmin: real, dt: real)
    requires dt > 0.0 && vmax >= 0.0 && dmin >= 0.0
    requires Descending(xs)
    ensures Descending(Moved(xs, Sweep(xs, vmax, dmin, dt), dt))
  {
    var vs := Sweep(xs, vmax, dmin, dt);
    var ms := Moved(xs, vs, dt);
    forall k | 0 < k < |ms|
      ensures ms[k] <= ms[k - 1]
    {
      assert vs[k] == GreedyVelocity(xs[k - 1], vs[k - 1], xs[k], vmax, dmin, dt);
      if Unclamped(xs[k - 1], vs[k - 1], xs[k], dmin, dt) >= 0.0 {
        GapAfterStep(xs, vmax, dmin, dt, k);
      } else {
        SweepBounds(xs, vmax, dmin, dt, k - 1);
        MultiplyMonotone(0.0, vs[k - 1], dt);
      }
    }
    AdjacentDescending(ms);
  }

  /** The elements of `s` whose flag in `keep` is set, in their order. */
  function Select<T>(s: seq<T>, keep: seq<bool>): (r: seq<T>)
    requires |keep| == |s|
    ensures |r| == |s| - Dropped(keep)
  {
    if s == [] then []
    else (if keep[0] then [s[0]] else []) + Select(s[1..], keep[1..])
  }

  /** The number of cleared flags. */
  function Dropped(keep: seq<bool>): nat
  {
    if keep == [] then 0 else (if keep[0] then 0 else 1) + Dropped(keep[1..])
  }

  /** An element is selected exactly when some position with a set flag holds it. */
  lemma {:induction false} SelectMembers<T>(s: seq<T>, keep: seq<bool>, y: T)
    requires |keep| == |s|
    ensures y in Select(s, keep) <==> exists i :: 0 <= i < |s| && keep[i] && s[i] == y
  {
    if s != [] {
      SelectMembers(s[1..], keep[1..], y);
      if exists i :: 0 <= i < |s| && keep[i] && s[i] == y {
        var i :| 0 <= i < |s| && keep[i] && s[i] == y;
        if i > 0 {
          assert keep[1..][i - 1] && s[1..][i - 1] == y;
        }
      }
      if exists i :: 0 <= i < |s| - 1 && keep[1..][i] && s[1..][i] == y {
        var i :| 0 <= i < |s| - 1 && keep[1..][i] && s[1..][i] == y;
        assert keep[i + 1] && s[i + 1] == y;
      }
    }
  }

  /** Selecting from a descending sequence leaves it descending. */
  lemma {:induction false} SelectDescending(xs: seq<real>, keep: seq<bool>)
    requires |keep| == |xs| && Descending(xs)
    ensures Descending(Select(xs, keep))
  {
    if xs != [] {
      SelectDescending(xs[1..], keep[1..]);
      var rest := Select(xs[1..], keep[1..]);
      forall y | y in rest
        ensures y <= xs[0]
      {
        SelectMembers(xs[1..], keep[1..], y);
        var i :| 0 <= i < |xs| - 1 && keep[1..][i] && xs[1..][i] == y;
        assert xs[i + 1] == y;
      }
      if keep[0] {
        var r := Select(xs, keep);
        assert r == [xs[0]] + rest;
        forall i, j | 0 <= i < j < |r|
          ensures r[i] >= r[j]
        {
          assert r[j] == rest[j - 1];
          assert rest[j - 1] in rest;
          if i > 0 {
            assert r[i] == rest[i - 1];
          }
        }
      }
    }
  }

  /** Selecting from a sequence without repetitions gives one without repetitions. */
  ghost predicate Distinct<T>(s: seq<T>)
  {
    forall i, j :: 0 <= i < j < |s| ==> s[i] != s[j]
  }

  lemma {:induction false} SelectDistinct<T>(s: seq<T>, keep: seq<bool>)
    requires |keep| == |s| && Distinct(s)
    ensures Distinct(Select(s, keep))
  {
    if s != [] {
      SelectDistinct(s[1..], keep[1..]);
      SelectMembers(s[1..], keep[1..], s[0]);
    }
  }

  /** The mask of `x <= L`: the cars that stay on the corridor. */
  function OnRoad(xs: seq<real>, L: real): (keep: seq<bool>)
    ensures |keep| == |xs|
    ensures forall i :: 0 <= i < |xs| ==> (keep[i] <==> xs[i] <= L)
  {
    seq(|xs|, i requires 0 <= i < |xs| => xs[i] <= L)
  }

  /** The number of positions beyond `L`: none when every position is at or before `L`. */
  function Exits(xs: seq<real>, L: real): (n: nat)
    ensures n <= |xs|
    ensures (forall i :: 0 <= i < |xs| ==> xs[i] <= L) ==> n == 0
  {
    if xs == [] then 0 else (if xs[0] > L then 1 else 0) + Exits(xs[1..], L)
  }

  /** The cleared flags of the mask are exactly the positions beyond `L`. */
  lemma {:induction false} DroppedAreExits(xs: seq<real>, L: real)
    ensures Dropped(OnRoad(xs, L)) == Exits(xs, L)
  {
    if xs != [] {
      assert OnRoad(xs, L)[1..] == OnRoad(xs[1..], L);
      DroppedAreExits(xs[1..], L);
    }
  }

  /** The cars left on the corridor all lie at or before `L`. */
  lemma KeptWithinRoad(xs: seq<real>, L: real, y: real)
    requires y in Select(xs, OnRoad(xs, L))
    ensures y <= L
  {
    SelectMembers(xs, OnRoad(xs, L), y);
  }

  /** `get_positions`: the positions in list order. */
  function XsOf(cs: seq<ParticleCar>): (xs: seq<real>)
    reads cs
    ensures |xs| == |cs|
    ensures forall i :: 0 <= i < |cs| ==> xs[i] == cs[i].x
  {
    seq(|cs|, i reads cs requires 0 <= i < |cs| => cs[i].x)
  }

  /** `get_velocities`: the velocities in list order. */
  function VsOf(cs: seq<ParticleCar>): (vs: seq<real>)
    reads cs
    ensures |vs| == |cs|
    ensures forall i :: 0 <= i < |cs| ==> vs[i] == cs[i].v
  {
    seq(|cs|, i reads cs requires 0 <= i < |cs| => cs[i].v)
  }

  /** Reading the positions of the selected cars is selecting from their positions. */
  lemma {:induction false} SelectPositions(cs: seq<ParticleCar>, keep: seq<bool>)
    requires |keep| == |cs|
    ensures XsOf(Select(cs, keep)) == Select(XsOf(cs), keep)
    ensures VsOf(Select(cs, keep)) == Select(VsOf(cs), keep)
  {
    if cs != [] {
      SelectPositions(cs[1..], keep[1..]);
      assert XsOf(cs)[1..] == XsOf(cs[1..]);
      assert VsOf(cs)[1..] == VsOf(cs[1..]);
      var head := if keep[0] then [cs[0]] else [];
      assert Select(cs, keep) == head + Select(cs[1..], keep[1..]);
      assert XsOf(head + Select(cs[1..], keep[1..])) == XsOf(head) + XsOf(Select(cs[1..], keep[1..]));
      assert VsOf(head + Select(cs[1..], keep[1..])) == VsOf(head) + VsOf(Select(cs[1..], keep[1..]));
    }
  }

  /**
   * Where a stable descending sort puts a new value `p` appended to `xs`:
   * after the leading run of values at or above `p`.
   */
  function InsertionIndex(xs: seq<real>, p: real): (i: nat)
    ensures i <= |xs|
    ensures forall j :: 0 <= j < i ==> xs[j] >= p
    ensures i < |xs| ==> xs[i] < p
  {
    if xs == [] || xs[0] < p then 0 else 1 + InsertionIndex(xs[1..], p)
  }

  /**
   * In a descending sequence the insertion point splits it into the
   * values at or above `p` and the values below `p`, and inserting `p`
   * there keeps it descending: the result is exactly the stable
   * descending sort of `xs + [p]`.
   */
  lemma InsertionKeepsOrder(xs: seq<real>, p: real)
    requires Descending(xs)
    ensures var i := InsertionIndex(xs, p);
            && (forall j :: i <= j < |xs| ==> xs[j] < p)
            && Descending(xs[..i] + [p] + xs[i..])
  {
    var i := InsertionIndex(xs, p);
    forall j | i <= j < |xs|
      ensures xs[j] < p
    {
      assert xs[j] <= xs[i];
    }
    var ys := xs[..i] + [p] + xs[i..];
    assert |ys| == |xs| + 1;
    assert forall j :: 0 <= j < i ==> ys[j] == xs[j];
    assert ys[i] == p;
    assert forall j :: i < j < |ys| ==> ys[j] == xs[j - 1];
    forall k | 0 < k < |ys|
      ensures ys[k] <= ys[k - 1]
    {
      if k < i || k > i + 1 {
        assert xs[if k < i then k else k - 1] <= xs[if k < i then k - 1 else k - 2];
      }
    }
    AdjacentDescending(ys);
  }

  /** Inserting a new element keeps a sequence free of repetitions. */
  lemma InsertionKeepsDistinct<T>(s: seq<T>, i: nat, y: T)
    requires i <= |s| && Distinct(s) && y !in s
    ensures Distinct(s[..i] + [y] + s[i..])
  {
    var t := s[..i] + [y] + s[i..];
    forall a, b | 0 <= a < b < |t|
      ensures t[a] != t[b]
    {
      if a != i && b != i {
        var a', b' := if a < i then a else a - 1, if b < i then b else b - 1;
        assert t[a] == s[a'] && t[b] == s[b'];
      } else if a == i {
        assert t[b] == s[b - 1];
      } else {
        assert t[a] == s[a];
      }
    }
  }

  /** The positions of a list with a car inserted. */
  lemma XsOfInsert(cs: seq<ParticleCar>, i: nat, c: ParticleCar)
    requires i <= |cs|
    ensures XsOf(cs[..i] + [c] + cs[i..]) == XsOf(cs)[..i] + [c.x] + XsOf(cs)[i..]
  {
  }

  /**
   * Removing the cars beyond `L` from a descending list of distinct cars
   * leaves a descending list of distinct cars, whose positions and
   * velocities are those of the kept cars.
   */
  lemma ExitKeepsOrder(cs: seq<ParticleCar>, keep: seq<bool>, L: real)
    requires keep == OnRoad(XsOf(cs), L)
    requires Distinct(cs) && Descending(XsOf(cs))
    ensures Distinct(Select(cs, keep)) && Descending(XsOf(Select(cs, keep)))
    ensures XsOf(Select(cs, keep)) == Select(XsOf(cs), keep)
    ensures VsOf(Select(cs, keep)) == Select(VsOf(cs), keep)
  {
    SelectPositions(cs, keep);
    SelectDescending(XsOf(cs), keep);
    SelectDistinct(cs, keep);
  }

  /** The number of positions in the closed window `[lo, hi]`. */
  function CountInWindow(xs: seq<real>, lo: real, hi: real): (n: nat)
    ensures n <= |xs|
    ensures (forall i :: 0 <= i < |xs| ==> lo <= xs[i] <= hi) ==> n == |xs|
  {
    if xs == [] then 0
    else CountInWindow(xs[..|xs| - 1], lo, hi) + (if lo <= xs[|xs| - 1] <= hi then 1 else 0)
  }

  /** The indices of the cars in the closed window `[lo, hi]`. */
  ghost function IndicesInWindow(xs: seq<real>, lo: real, hi: real): set<int>
  {
    set i | 0 <= i < |xs| && lo <= xs[i] <= hi
  }

  /** The running count is the number of cars in the window. */
  lemma {:induction false} CountIsCardinality(xs: seq<real>, lo: real, hi: real)
    ensures CountInWindow(xs, lo, hi) == |IndicesInWindow(xs, lo, hi)|
  {
    if xs != [] {
      var n := |xs| - 1;
      var init := xs[..n];
      CountIsCardinality(init, lo, hi);
      var last := if lo <= xs[n] <= hi then {n} else {};
      assert IndicesInWindow(xs, lo, hi) == IndicesInWindow(init, lo, hi) + last;
      assert n !in IndicesInWindow(init, lo, hi);
    }
  }

  /**
   * The density around `x`: the number of cars in the closed window of
   * width `window` centred at `x`, times the car length, over the width.
   */
  function DensityAt(xs: seq<real>, lcar: real, x: real, window: real): (rho: real)
    requires window != 0.0
    ensures rho * window == (|IndicesInWindow(xs, x - window / 2.0, x + window / 2.0)| as real) * lcar
  {
    CountIsCardinality(xs, x - window / 2.0, x + window / 2.0);
    (CountInWindow(xs, x - window / 2.0, x + window / 2.0) as real) * lcar / window
  }

  /**
   * A front car at 10 km driving at
   * 20 km/h and a car at 0 with `dmin = 0.01`, `dt = 1/3600` and
   * `vmax = 100`; the gap allows far more than `vmax`, so the law gives `vmax`.
   */
  lemma TwoCarExample()
    ensures GreedyVelocity(10.0, 20.0, 0.0, 100.0, 0.01, 1.0 / 3600.0) == 100.0
  {
    assert Unclamped(10.0, 20.0, 0.0, 0.01, 1.0 / 3600.0) == 35984.0;
  }

  /**
   * `ParticleTrafficModel`: the corridor length `L`, the speed limit
   * `vmax`, the minimum spacing `dmin`, the car length `lcar`, the step
   * `dt`, the cars front first, and the clock.
   */
  class ParticleTrafficModel {
    const L: real
    const vmax: real
    const dmin: real
    const lcar: real
    const dt: real
    var cars: seq<ParticleCar>
    var time: real

    /**
     * The invariant: a positive step, `vmax >= 0` and `dmin >= 0` (none
     * of which the source checks), each car object at most once in the
     * list, and the cars in descending order of position.
     */
    ghost predicate Valid()
      reads this, cars
    {
      && dt > 0.0 && vmax >= 0.0 && dmin >= 0.0
      && Distinct(cars)
      && Descending(XsOf(cars))
    }

    constructor (L: real, vmax: real, dmin: real, lcar: real, dt: real := 1.0 / 3600.0)
      requires dt > 0.0 && vmax >= 0.0 && dmin >= 0.0
      ensures Valid()
      ensures this.L == L && this.vmax == vmax && this.dmin == dmin
      ensures this.lcar == lcar && this.dt == dt
      ensures cars == [] && time == 0.0
    {
      this.L := L;
      this.vmax := vmax;
      this.dmin := dmin;
      this.lcar := lcar;
      this.dt := dt;
      cars := [];
      time := 0.0;
    }

    /**
     * `add_car`: appends a new car and re-sorts in descending order of
     * position. The sort is stable and the list was already descending, so
     * the new car lands right after every car at or ahead of its position
     * and before every car behind it; no other car moves or changes.
     */
    method AddCar(position: real, velocity: real) returns (ghost k: nat)
      requires Valid()
      modifies this
      ensures Valid()
      ensures k == InsertionIndex(old(XsOf(cars)), position)
      ensures |cars| == |old(cars)| + 1 && k < |cars| && fresh(cars[k])
      ensures cars[k].x == position && cars[k].v == velocity && cars[k].a == 0.0
      ensures cars == old(cars)[..k] + [cars[k]] + old(cars)[k..]
      ensures XsOf(cars) == old(XsOf(cars))[..k] + [position] + old(XsOf(cars))[k..]
      ensures time == old(time)
    {
      var car := new ParticleCar(position, velocity);
      ghost var before := cars;
      ghost var xs := XsOf(cars);
      var i := InsertionIndex(XsOf(cars), position);
      InsertionKeepsOrder(xs, position);
      InsertionKeepsDistinct(before, i, car);
      cars := cars[..i] + [car] + cars[i..];
      XsOfInsert(before, i, car);
      k := i;
    }

    /**
     * `compute_velocity_simple`: the front car drives at `vmax`; any other
     * car applies the greedy law to the car ahead of it in the list, as
     * that car is now.
     */
    function ComputeVelocitySimple(i: nat): (r: real)
      reads this, cars
      requires i > 0 ==> i < |cars| && dt != 0.0
      ensures i == 0 ==> r == vmax
      ensures i > 0 ==> r >= 0.0
      ensures i > 0 && vmax >= 0.0 ==> r <= vmax
      ensures i > 0 && 0.0 <= Unclamped(cars[i - 1].x, cars[i - 1].v, cars[i].x, dmin, dt) <= vmax ==>
                r * dt == cars[i - 1].x - cars[i].x - dmin + cars[i - 1].v * dt
    {
      if i == 0 then vmax
      else GreedyVelocity(cars[i - 1].x, cars[i - 1].v, cars[i].x, vmax, dmin, dt)
    }

    /** `get_positions`: one position per car, in the current order. */
    function GetPositions(): (xs: seq<real>)
      reads this, cars
      ensures |xs| == |cars| && forall i :: 0 <= i < |cars| ==> xs[i] == cars[i].x
    {
      XsOf(cars)
    }

    /** `get_velocities`: one velocity per car, in the current order. */
    function GetVelocities(): (vs: seq<real>)
      reads this, cars
      ensures |vs| == |cars| && forall i :: 0 <= i < |cars| ==> vs[i] == cars[i].v
    {
      VsOf(cars)
    }

    /** `get_density_at`, on the current positions. */
    function GetDensityAt(x: real, window: real := 0.1): (rho: real)
      reads this, cars
      requires window != 0.0
      ensures rho * window == (|IndicesInWindow(XsOf(cars), x - window / 2.0, x + window / 2.0)| as real)
                              * lcar
    {
      DensityAt(XsOf(cars), lcar, x, window)
    }

    /**
     * The velocity loop of `step`: front to back, each car gets
     * `compute_velocity_simple` of its index, so it sees the old
     * positions and the new velocity of the car ahead. Only velocities
     * change.
     */
    method SweepVelocities()
      requires dt != 0.0 && Distinct(cars)
      modifies cars
      ensures VsOf(cars) == Sweep(old(XsOf(cars)), vmax, dmin, dt)
      ensures XsOf(cars) == old(XsOf(cars))
      ensures forall c :: c in cars ==> c.a == old(c.a)
    {
      ghost var xs := XsOf(cars);
      ghost var vs := Sweep(xs, vmax, dmin, dt);
      var n := |cars|;
      for i := 0 to n
        invariant forall j :: 0 <= j < n ==> cars[j].x == xs[j] && cars[j].a == old(cars[j].a)
        invariant forall j :: 0 <= j < i ==> cars[j].v == vs[j]
      {
        assert i > 0 ==> vs[i] == GreedyVelocity(xs[i - 1], vs[i - 1], xs[i], vmax, dmin, dt);
        cars[i].v := ComputeVelocitySimple(i);
      }
    }

    /** The position loop of `step`: every car moves by `v * dt`. */
    method MovePositions()
      requires Distinct(cars)
      modifies cars
      ensures XsOf(cars) == Moved(old(XsOf(cars)), old(VsOf(cars)), dt)
      ensures VsOf(cars) == old(VsOf(cars))
      ensures forall c :: c in cars ==> c.a == old(c.a)
    {
      ghost var ms := Moved(XsOf(cars), VsOf(cars), dt);
      var n := |cars|;
      for i := 0 to n
        invariant forall j :: 0 <= j < n ==> cars[j].v == old(cars[j].v) && cars[j].a == old(cars[j].a)
        invariant forall j :: 0 <= j < i ==> cars[j].x == ms[j]
        invariant forall j :: i <= j < n ==> cars[j].x == old(cars[j].x)
      {
        cars[i].x := cars[i].x + cars[i].v * dt;
      }
    }

    /**
     * `step`: the velocity sweep, the position pass, then the cars beyond
     * `L` leave in one filter that keeps the order of the rest, and the
     * clock advances by `dt`. The corridor stays in descending order.
     */
    method Step()
      requires Valid()
      modifies this, cars
      ensures Valid()
      ensures var xs := old(XsOf(cars));
              var vs := Sweep(xs, vmax, dmin, dt);
              var keep := OnRoad(Moved(xs, vs, dt), L);
              && cars == Select(old(cars), keep)
              && XsOf(cars) == Select(Moved(xs, vs, dt), keep)
              && VsOf(cars) == Select(vs, keep)
      ensures |cars| == |old(cars)| - Exits(Moved(old(XsOf(cars)), Sweep(old(XsOf(cars)), vmax, dmin, dt), dt), L)
      ensures forall c :: c in old(cars) ==> c.a == old(c.a)
      ensures time == old(time) + dt
    {
      ghost var xs := XsOf(cars);
      ghost var vs := Sweep(xs, vmax, dmin, dt);
      ghost var ms := Moved(xs, vs, dt);
      StepKeepsOrder(xs, vmax, dmin, dt);
      DroppedAreExits(ms, L);
      SweepVelocities();
      MovePositions();
      assert XsOf(cars) == ms && VsOf(cars) == vs;
      var keep := OnRoad(XsOf(cars), L);
      ExitKeepsOrder(cars, keep, L);
      time := time + dt;
      cars := Select(cars, keep);
    }
  }
}
