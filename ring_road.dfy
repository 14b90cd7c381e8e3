/**
 * The ring-road simulation driven by the Intelligent Driver Model (IDM):
 * vehicle records with their car-following parameters, the IDM
 * acceleration law, the same-lane leader search, and the two-phase road
 * update (every acceleration from the pre-step state, then a ballistic
 * move with a single periodic wrap).
 *
 * The square root in the IDM's desired gap is not available on Dafny's
 * `real`; it enters as the function value `sqrt`, about which nothing is
 * assumed.
 */
module RingRoad {
  import opened Wrappers

  /**
   * A vehicle. Speeds are in m/s, lengths and positions in m; `lane` 0 is
   * the rightmost lane. The display colour is not part of the model.
   */
  datatype Vehicle = Vehicle(
    id: int, position: real, speed: real, lane: int,
    length: real, width: real,
    vDesired: real, timeHeadway: real, s0: real, aMax: real, bComfort: real,
    isTruck: bool)

  /** The length and desired speed every truck gets, whatever was passed. */
  const TruckLength: real := 15.0
  const TruckDesiredSpeed: real := 25.0

  /**
   * The record's constructor with its defaults, followed by the truck
   * override: a truck's length and desired speed are replaced, every other
   * field keeps the passed (or default) value.
   */
  function NewVehicle(id: int, position: real, speed: real, lane: int,
                      length: real := 5.0, width: real := 2.0,
                      vDesired: real := 30.0, timeHeadway: real := 1.5, s0: real := 2.0,
                      aMax: real := 1.0, bComfort: real := 1.5, isTruck: bool := false)
    : (v: Vehicle)
    ensures v.id == id && v.position == position && v.speed == speed && v.lane == lane
    ensures v.width == width && v.timeHeadway == timeHeadway && v.s0 == s0
    ensures v.aMax == aMax && v.bComfort == bComfort && v.isTruck == isTruck
    ensures isTruck ==> v.length == TruckLength && v.vDesired == TruckDesiredSpeed
    ensures !isTruck ==> v.length == length && v.vDesired == vDesired
  {
    var v := Vehicle(id, position, speed, lane, length, width,
                     vDesired, timeHeadway, s0, aMax, bComfort, isTruck);
    if isTruck then v.(length := TruckLength, vDesired := TruckDesiredSpeed) else v
  }

  /** Python's `max` of two numbers. */
  function Max(a: real, b: real): real
  {
    if b > a then b else a
  }

  /** `x ** n` for a natural exponent. */
  function Pow(x: real, n: nat): real
  {
    if n == 0 then 1.0 else x * Pow(x, n - 1)
  }

  /** An even power is never negative. */
  lemma {:induction false} EvenPowerNonNegative(x: real, n: nat)
    ensures n % 2 == 0 ==> Pow(x, n) >= 0.0
  {
    if n >= 2 && n % 2 == 0 {
      EvenPowerNonNegative(x, n - 2);
      assert Pow(x, n) == x * x * Pow(x, n - 2);
      assert x * x >= 0.0;
      NonNegativeProduct(x * x, Pow(x, n - 2));
    }
  }

  lemma NonNegativeProduct(a: real, b: real)
    requires a >= 0.0 && b >= 0.0
    ensures a * b >= 0.0
  {
  }

  /** A power of a number in `[0, 1]` stays in `[0, 1]`. */
  lemma {:induction false} UnitPower(x: real, n: nat)
    requires 0.0 <= x <= 1.0
    ensures 0.0 <= Pow(x, n) <= 1.0
  {
    if n > 0 {
      UnitPower(x, n - 1);
      NonNegativeProduct(x, Pow(x, n - 1));
      ScaleDown(Pow(x, n - 1), x);
    }
  }

  /** Scaling by a factor in `[0, 1]` keeps a non-negative number between 0 and itself. */
  lemma ScaleDown(a: real, t: real)
    requires a >= 0.0 && 0.0 <= t <= 1.0
    ensures 0.0 <= t * a <= a
  {
  }

  lemma {:induction false} PowerOfOne(n: nat)
    ensures Pow(1.0, n) == 1.0
  {
    if n > 0 {
      PowerOfOne(n - 1);
    }
  }

  /** The default acceleration exponent delta. */
  const DefaultDelta: nat := 4

  /**
   * The smallest gap the desired-gap ratio divides by: a numerical floor
   * that keeps the law defined for gaps near zero or negative.
   */
  const GapFloor: real := 0.1

  /** The net gap to a leader: the leader's rear, so the leader's length. */
  function Gap(veh: Vehicle, leader: Vehicle): real
  {
    leader.position - veh.position - leader.length
  }

  /** The desired dynamic gap `s*`; never below the jam gap `s0`. */
  function DesiredGap(veh: Vehicle, leader: Vehicle, sqrt: real -> real): (sStar: real)
    requires sqrt(veh.aMax * veh.bComfort) != 0.0
    ensures sStar >= veh.s0
  {
    var dv := veh.speed - leader.speed;
    veh.s0 + Max(0.0, veh.speed * veh.timeHeadway
                      + (veh.speed * dv) / (2.0 * sqrt(veh.aMax * veh.bComfort)))
  }

  /**
   * The free-road acceleration `aMax * (1 - (v / vDesired)^delta)`. A
   * vehicle driving between rest and its desired speed (in the direction
   * of the desired speed) accelerates by at least 0 and at most `aMax`.
   */
  function FreeRoadAcceleration(veh: Vehicle, delta: nat): (acc: real)
    requires veh.vDesired != 0.0
    ensures veh.aMax >= 0.0 && 0.0 <= veh.speed / veh.vDesired <= 1.0 ==>
              0.0 <= acc <= veh.aMax
  {
    UnitRange(veh.aMax, veh.speed / veh.vDesired, delta);
    veh.aMax * (1.0 - Pow(veh.speed / veh.vDesired, delta))
  }

  /** `a * (1 - x^n)` lies in `[0, a]` for `a >= 0` and `x` in `[0, 1]`. */
  lemma UnitRange(a: real, x: real, n: nat)
    ensures a >= 0.0 && 0.0 <= x <= 1.0 ==> 0.0 <= a * (1.0 - Pow(x, n)) <= a
  {
    if a >= 0.0 && 0.0 <= x <= 1.0 {
      UnitPower(x, n);
      ScaleDown(a, 1.0 - Pow(x, n));
    }
  }

  /** From rest the free-road law gives `aMax`; at the desired speed it gives zero. */
  lemma FreeRoadExtremes(veh: Vehicle, delta: nat)
    requires veh.vDesired != 0.0
    ensures veh.speed == 0.0 && delta > 0 ==> FreeRoadAcceleration(veh, delta) == veh.aMax
    ensures veh.speed == veh.vDesired ==> FreeRoadAcceleration(veh, delta) == 0.0
  {
    if veh.speed == 0.0 && delta > 0 {
      assert veh.speed / veh.vDesired == 0.0;
      assert Pow(0.0, delta) == 0.0 * Pow(0.0, delta - 1);
    }
    if veh.speed == veh.vDesired {
      assert veh.speed / veh.vDesired == 1.0;
      PowerOfOne(delta);
    }
  }

  /** What the law needs of a vehicle: a non-zero desired speed, and a non-zero `sqrt(aMax * bComfort)` when it has a leader. */
  predicate Drivable(veh: Vehicle, leader: Option<Vehicle>, sqrt: real -> real)
  {
    veh.vDesired != 0.0 && (leader.Some? ==> sqrt(veh.aMax * veh.bComfort) != 0.0)
  }

  /**
   * The law behind a leader: the free-road term minus the interaction term
   * `aMax * (s* / max(s, 0.1))^2`. With `aMax >= 0` the interaction only
   * brakes; with `aMax > 0` and an even exponent the result is at most `aMax`.
   */
  function FollowingAcceleration(veh: Vehicle, leader: Vehicle, sqrt: real -> real, delta: nat)
    : (acc: real)
    requires veh.vDesired != 0.0 && sqrt(veh.aMax * veh.bComfort) != 0.0
    ensures acc == FreeRoadAcceleration(veh, delta)
                   - veh.aMax * Pow(DesiredGap(veh, leader, sqrt) / Max(Gap(veh, leader), GapFloor), 2)
    ensures veh.aMax >= 0.0 ==> acc <= FreeRoadAcceleration(veh, delta)
    ensures veh.aMax > 0.0 && delta % 2 == 0 ==> acc <= veh.aMax
  {
    var s := Gap(veh, leader);
    var sStar := DesiredGap(veh, leader, sqrt);
    var free := Pow(veh.speed / veh.vDesired, delta);
    var interaction := Pow(sStar / Max(s, GapFloor), 2);
    EvenPowerNonNegative(sStar / Max(s, GapFloor), 2);
    EvenPowerNonNegative(veh.speed / veh.vDesired, delta);
    InteractionBrakes(veh.aMax, free, interaction);
    veh.aMax * (1.0 - free - interaction)
  }

  /**
   * `IDMModel.calc_acceleration`. Without a leader: the free-road term,
   * `aMax` from rest and zero at the desired speed. With one: the
   * following law, whose divisor is the gap floor once the gap is 0.1 or
   * less. With `aMax > 0` and an even exponent the result never exceeds
   * `aMax`, and with `aMax >= 0` a leader never raises it above the
   * free-road value.
   */
  function CalcAcceleration(veh: Vehicle, leader: Option<Vehicle>, sqrt: real -> real,
                            delta: nat := DefaultDelta)
    : (acc: real)
    requires Drivable(veh, leader, sqrt)
    ensures leader.None? ==> acc == FreeRoadAcceleration(veh, delta)
    ensures leader.None? && veh.speed == 0.0 && delta > 0 ==> acc == veh.aMax
    ensures leader.None? && veh.speed == veh.vDesired ==> acc == 0.0
    ensures leader.Some? && Gap(veh, leader.value) <= GapFloor ==>
              acc == FreeRoadAcceleration(veh, delta)
                     - veh.aMax * Pow(DesiredGap(veh, leader.value, sqrt) / GapFloor, 2)
    ensures leader.Some? && Gap(veh, leader.value) > GapFloor ==>
              acc == FreeRoadAcceleration(veh, delta)
                     - veh.aMax * Pow(DesiredGap(veh, leader.value, sqrt) / Gap(veh, leader.value), 2)
    ensures leader.Some? && veh.aMax >= 0.0 ==> acc <= FreeRoadAcceleration(veh, delta)
    ensures veh.aMax > 0.0 && delta % 2 == 0 ==> acc <= veh.aMax
  {
    if leader.None? then
      FreeRoadExtremes(veh, delta);
      FreeRoadBound(veh, delta);
      FreeRoadAcceleration(veh, delta)
    else
      FollowingAcceleration(veh, leader.value, sqrt, delta)
  }

  /** With `aMax > 0` and an even exponent the free-road term is at most `aMax`. */
  lemma FreeRoadBound(veh: Vehicle, delta: nat)
    requires veh.vDesired != 0.0
    ensures veh.aMax > 0.0 && delta % 2 == 0 ==> FreeRoadAcceleration(veh, delta) <= veh.aMax
  {
    EvenPowerNonNegative(veh.speed / veh.vDesired, delta);
    InteractionBrakes(veh.aMax, Pow(veh.speed / veh.vDesired, delta), 0.0);
  }

  /** The algebra behind the bounds of the IDM law. */
  lemma InteractionBrakes(aMax: real, free: real, interaction: real)
    ensures aMax * (1.0 - free - interaction) == aMax * (1.0 - free) - aMax * interaction
    ensures aMax >= 0.0 && interaction >= 0.0 ==> aMax * interaction >= 0.0
    ensures aMax > 0.0 && free >= 0.0 && interaction >= 0.0 ==> aMax * (1.0 - free - interaction) <= aMax
  {
  }

  /** The elements of `s` that satisfy `p`, in order (a list comprehension with a filter). */
  function Filter(s: seq<Vehicle>, p: Vehicle -> bool): (r: seq<Vehicle>)
    ensures |r| <= |s|
    ensures forall w :: w in r <==> w in s && p(w)
  {
    if s == [] then []
    else (if p(s[0]) then [s[0]] else []) + Filter(s[1..], p)
  }

  /**
   * The index Python's `min(cs, key=position)` picks: a minimum position,
   * and the first one in list order.
   */
  function NearestIndex(cs: seq<Vehicle>): (k: nat)
    requires |cs| > 0
    ensures k < |cs|
    ensures forall j :: 0 <= j < |cs| ==> cs[k].position <= cs[j].position
    ensures forall j :: 0 <= j < k ==> cs[j].position > cs[k].position
  {
    if |cs| == 1 then 0
    else
      var k := NearestIndex(cs[1..]);
      if cs[1 + k].position < cs[0].position then 1 + k else 0
  }

  /** A leader candidate: another vehicle in the same lane, strictly ahead. */
  predicate Ahead(w: Vehicle, veh: Vehicle)
  {
    w.lane == veh.lane && w.id != veh.id && w.position > veh.position
  }

  /**
   * `Road.get_leader`: the same-lane vehicles with another id, then those
   * strictly ahead, then the nearest of them. None exactly when there is
   * no candidate; otherwise a candidate with the smallest position. The
   * search does not wrap around the ring.
   */
  function LeaderOf(vs: seq<Vehicle>, veh: Vehicle): (r: Option<Vehicle>)
    ensures r.None? <==> forall w :: w in vs ==> !Ahead(w, veh)
    ensures r.Some? ==> r.value in vs && Ahead(r.value, veh)
    ensures r.Some? ==> forall w :: w in vs && Ahead(w, veh) ==> r.value.position <= w.position
  {
    var sameLane := Filter(vs, (w: Vehicle) => w.lane == veh.lane && w.id != veh.id);
    var ahead := Filter(sameLane, (w: Vehicle) => w.position > veh.position);
    if |ahead| == 0 then
      assert forall w :: w in vs && Ahead(w, veh) ==> w in ahead;
      None
    else
      var k := NearestIndex(ahead);
      assert forall w :: w in vs && Ahead(w, veh) ==> w in ahead;
      assert ahead[k] in ahead && ahead[k] in sameLane;
      assert ahead[k] in vs && Ahead(ahead[k], veh);
      Some(ahead[k])
  }

  /**
   * The vehicle furthest ahead in its lane has no leader: the search
   * never looks across the seam of the ring.
   */
  lemma FrontMostHasNoLeader(vs: seq<Vehicle>, veh: Vehicle)
    requires forall w :: w in vs && w.lane == veh.lane && w.id != veh.id ==> w.position <= veh.position
    ensures LeaderOf(vs, veh) == None
  {
  }

  /**
   * Whether there is a leader, and the leader's position, depend only on
   * which vehicles are on the road, not on their order in the list.
   */
  lemma LeaderPositionIgnoresOrder(vs: seq<Vehicle>, ws: seq<Vehicle>, veh: Vehicle)
    requires forall w :: w in vs <==> w in ws
    ensures LeaderOf(vs, veh).None? <==> LeaderOf(ws, veh).None?
    ensures LeaderOf(vs, veh).Some? ==>
              LeaderOf(vs, veh).value.position == LeaderOf(ws, veh).value.position
  {
    var a, b := LeaderOf(vs, veh), LeaderOf(ws, veh);
    if a.Some? && b.Some? {
      assert a.value in ws;
      assert b.value in vs;
    }
  }

  /** `update`'s first phase needs every vehicle drivable against its pre-step leader. */
  predicate AllDrivable(vs: seq<Vehicle>, snapshot: seq<Vehicle>, sqrt: real -> real)
  {
    forall k :: 0 <= k < |vs| ==> Drivable(vs[k], LeaderOf(snapshot, vs[k]), sqrt)
  }

  /**
   * The `accelerations` dictionary after the first loop of `update` has
   * visited `vs`, with leaders looked up in the pre-step list `snapshot`:
   * keyed by id, a later vehicle with the same id overwriting an earlier one.
   */
  function AccelerationTable(vs: seq<Vehicle>, snapshot: seq<Vehicle>, sqrt: real -> real)
    : (t: map<int, real>)
    requires AllDrivable(vs, snapshot, sqrt)
    ensures forall k :: 0 <= k < |vs| ==> vs[k].id in t
    decreases |vs|
  {
    if vs == [] then map[]
    else
      var last := vs[|vs| - 1];
      AccelerationTable(vs[..|vs| - 1], snapshot, sqrt)
        [last.id := CalcAcceleration(last, LeaderOf(snapshot, last), sqrt)]
  }

  /**
   * The table holds, for each id, the acceleration of the last vehicle
   * with that id, computed against the pre-step list.
   */
  lemma {:induction false} LastWriteWins(vs: seq<Vehicle>, snapshot: seq<Vehicle>,
                                         sqrt: real -> real, k: nat)
    requires AllDrivable(vs, snapshot, sqrt)
    requires k < |vs|
    requires forall j :: k < j < |vs| ==> vs[j].id != vs[k].id
    ensures AccelerationTable(vs, snapshot, sqrt)[vs[k].id]
            == CalcAcceleration(vs[k], LeaderOf(snapshot, vs[k]), sqrt)
  {
    var init := vs[..|vs| - 1];
    if k < |vs| - 1 {
      assert forall j :: k < j < |init| ==> init[j] == vs[j];
      LastWriteWins(init, snapshot, sqrt, k);
    }
  }

  /** One more vehicle visited by the first loop of `update` adds (or overwrites) its own entry. */
  lemma TableStep(vs: seq<Vehicle>, snapshot: seq<Vehicle>, sqrt: real -> real, i: nat)
    requires AllDrivable(vs, snapshot, sqrt) && i < |vs|
    ensures AllDrivable(vs[..i + 1], snapshot, sqrt)
    ensures AccelerationTable(vs[..i + 1], snapshot, sqrt)
            == AccelerationTable(vs[..i], snapshot, sqrt)
                 [vs[i].id := CalcAcceleration(vs[i], LeaderOf(snapshot, vs[i]), sqrt)]
  {
    assert vs[..i + 1][..i] == vs[..i];
    assert vs[..i + 1][i] == vs[i];
  }

  /** No two vehicles share an id. */
  predicate DistinctIds(vs: seq<Vehicle>)
  {
    forall i, j :: 0 <= i < j < |vs| ==> vs[i].id != vs[j].id
  }

  /** With distinct ids, every vehicle gets its own IDM acceleration against the pre-step list. */
  lemma DistinctIdsOwnAcceleration(vs: seq<Vehicle>, sqrt: real -> real, k: nat)
    requires AllDrivable(vs, vs, sqrt) && DistinctIds(vs)
    requires k < |vs|
    ensures AccelerationTable(vs, vs, sqrt)[vs[k].id]
            == CalcAcceleration(vs[k], LeaderOf(vs, vs[k]), sqrt)
  {
    LastWriteWins(vs, vs, sqrt, k);
  }

  /**
   * The ring-road boundary: above `length` subtract it once, below zero
   * add it once, and leave `[0, length]` (both ends included) untouched.
   */
  function Wrap(p: real, length: real): (q: real)
    ensures p > length ==> q == p - length
    ensures p < 0.0 && p <= length ==> q == p + length
    ensures 0.0 <= p <= length ==> q == p
  {
    if p > length then p - length
    else if p < 0.0 then p + length
    else p
  }

  /** A move of at most one ring length from a position on the ring stays on the ring. */
  lemma WrapStaysOnRing(p: real, d: real, length: real)
    requires 0.0 <= p <= length
    requires -length <= d <= length
    ensures 0.0 <= Wrap(p + d, length) <= length
  {
  }

  /**
   * The second phase of `update` for one vehicle: the speed becomes
   * `max(0, speed + acc * dt)`, the position moves by the NEW speed times
   * `dt` plus `acc * dt^2 / 2` and is wrapped once; nothing else changes.
   */
  function Advance(veh: Vehicle, acc: real, dt: real, length: real): (r: Vehicle)
    ensures r == veh.(speed := r.speed, position := r.position)
    ensures r.speed == Max(0.0, veh.speed + acc * dt) && r.speed >= 0.0
    ensures r.position == Wrap(veh.position + r.speed * dt + 0.5 * acc * dt * dt, length)
  {
    var speed := Max(0.0, veh.speed + acc * dt);
    veh.(speed := speed,
         position := Wrap(veh.position + speed * dt + 0.5 * acc * dt * dt, length))
  }

  /**
   * A lone default car at rest with `aMax = 1` accelerates at 1; after a
   * step of 1 s its speed is 1 and it has moved 1.5 (the new speed times
   * `dt` plus half the acceleration).
   */
  lemma LoneCarFromRest(sqrt: real -> real, length: real)
    requires length >= 1.5
    ensures var v := NewVehicle(0, 0.0, 0.0, 0);
            var acc := CalcAcceleration(v, None, sqrt);
            && acc == 1.0
            && Advance(v, acc, 1.0, length).speed == 1.0
            && Advance(v, acc, 1.0, length).position == 1.5
  {
  }

  /**
   * `Road`: a ring of `length` metres with `nLanes` lanes and a list of
   * vehicles. `sqrt` stands for the square root the IDM law uses.
   */
  class Road {
    const length: real
    const nLanes: int
    const sqrt: real -> real
    var vehicles: seq<Vehicle>

    constructor (length: real, sqrt: real -> real, nLanes: int := 2)
      ensures this.length == length && this.nLanes == nLanes && this.sqrt == sqrt
      ensures vehicles == []
    {
      this.length := length;
      this.nLanes := nLanes;
      this.sqrt := sqrt;
      vehicles := [];
    }

    /** `add_vehicle`: appends, without checking the id. */
    method AddVehicle(veh: Vehicle)
      modifies this
      ensures vehicles == old(vehicles) + [veh]
    {
      vehicles := vehicles + [veh];
    }

    /**
     * `get_leader` on this road's list: none exactly when no other
     * same-lane vehicle on the road is strictly ahead, otherwise the
     * nearest such vehicle.
     */
    function GetLeader(veh: Vehicle): (r: Option<Vehicle>)
      reads this
      ensures r.None? <==> forall w :: w in vehicles ==> !Ahead(w, veh)
      ensures r.Some? ==> r.value in vehicles && Ahead(r.value, veh)
      ensures r.Some? ==> forall w :: w in vehicles && Ahead(w, veh) ==> r.value.position <= w.position
    {
      LeaderOf(vehicles, veh)
    }

    /**
     * The first loop of `update`: one IDM acceleration per vehicle, each
     * against its leader in the current list, stored under the vehicle's id.
     */
    method ComputeAccelerations() returns (accelerations: map<int, real>)
      requires AllDrivable(vehicles, vehicles, sqrt)
      ensures accelerations == AccelerationTable(vehicles, vehicles, sqrt)
    {
      accelerations := map[];
      for i := 0 to |vehicles|
        invariant AllDrivable(vehicles[..i], vehicles, sqrt)
        invariant accelerations == AccelerationTable(vehicles[..i], vehicles, sqrt)
      {
        var veh := vehicles[i];
        var leader := GetLeader(veh);
        assert leader == LeaderOf(vehicles, veh);
        TableStep(vehicles, vehicles, sqrt, i);
        accelerations := accelerations[veh.id := CalcAcceleration(veh, leader, sqrt)];
      }
      assert vehicles[..|vehicles|] == vehicles;
    }

    /**
     * `update`: first every acceleration, from the pre-step list, into a
     * table keyed by id; then each vehicle in list order is advanced with
     * the table's entry for its id. The list keeps its length and order;
     * only speeds and positions change.
     */
    method Update(dt: real)
      requires AllDrivable(vehicles, vehicles, sqrt)
      modifies this
      ensures |vehicles| == |old(vehicles)|
      ensures forall k :: 0 <= k < |vehicles| ==>
                vehicles[k] == Advance(old(vehicles)[k],
                                       AccelerationTable(old(vehicles), old(vehicles), sqrt)[old(vehicles)[k].id],
                                       dt, length)
    {
      var accelerations := ComputeAccelerations();
      ghost var snapshot := vehicles;
      for i := 0 to |vehicles|
        invariant |vehicles| == |snapshot|
        invariant forall k :: 0 <= k < |snapshot| ==> snapshot[k].id in accelerations
        invariant forall k :: 0 <= k < i ==>
                    vehicles[k] == Advance(snapshot[k], accelerations[snapshot[k].id], dt, length)
        invariant forall k :: i <= k < |snapshot| ==> vehicles[k] == snapshot[k]
      {
        var veh := vehicles[i];
        var acc := accelerations[veh.id];
        vehicles := vehicles[i := Advance(veh, acc, dt, length)];
      }
    }
  }

  /** After a road update every speed is non-negative, whatever the accelerations were. */
  lemma UpdateKeepsSpeedsNonNegative(vs: seq<Vehicle>, sqrt: real -> real, dt: real, length: real, k: nat)
    requires AllDrivable(vs, vs, sqrt)
    requires k < |vs|
    ensures Advance(vs[k], AccelerationTable(vs, vs, sqrt)[vs[k].id], dt, length).speed >= 0.0
  {
  }
}
