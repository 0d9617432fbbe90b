/**
 * What one call of `Robaczek.update` does to a creature, as a function of
 * the creature's state before the call, the food on offer, the frame time,
 * the world bounds and the random draws of that frame; and what follows from
 * it over one frame and over a whole meal. The class in creature.dfy is
 * proved to change its fields exactly as `Tick` says.
 */
module Behaviour {
  import opened Wrappers
  import opened Numeric
  import opened Food

  /** The per-creature constants: maxima, vision and the length of a meal in frames. */
  datatype Traits = Traits(maxSpeed: real, maxEnergy: real, maxHp: real,
                           viewAngle: real, viewRange: real, eatingDuration: int)

  /** The fields that `update` changes. */
  datatype CreatureState = CreatureState(
    x: real, y: real, dir: real, speed: real, energy: real, hp: real,
    targetFood: Apple?, lastEatenFood: Apple?, isEating: bool, eatingTimeRemaining: int)

  /** The `{w, h}` bounds object passed to `update`. */
  datatype Bounds = Bounds(w: real, h: real)

  /**
   * The three Math.random() draws of a wandering frame: whether to turn
   * (`turnRoll` < 0.03), by how much, and the new speed.
   */
  datatype Wander = Wander(turnRoll: real, turnDraw: real, speedDraw: real)

  /** The arguments and random draws of one `update` call. */
  datatype Frame = Frame(dt: real, bounds: Option<Bounds>, foods: seq<Apple>, wander: Wander)

  const ArrivalDistance: real := 15.0
  const HuntFactor: real := 0.8
  const PoisonEnergyPenalty: real := 20.0
  const DrainRate: real := 0.02
  const TurnChance: real := 0.03
  const ExhaustedSpeedFactor: real := 0.2
  const WanderBaseSpeed: real := 0.5
  const WanderSpeedSpread: real := 1.5

  predicate Unit(r: real) { 0.0 <= r < 1.0 }

  /** Distance from the creature to the point (tx, ty). */
  function Range(b: CreatureState, tx: real, ty: real, g: Trig): real {
    g.hypot(tx - b.x, ty - b.y)
  }

  /** Heading from the creature to the point (tx, ty). */
  function Bearing(b: CreatureState, tx: real, ty: real, g: Trig): real {
    g.atan2(ty - b.y, tx - b.x)
  }

  /** Half of the view angle, converted from degrees to radians. */
  function HalfAngle(viewAngle: real): real {
    (viewAngle * PI / 180.0) / 2.0
  }

  /**
   * The vision cone: the point is at most `viewRange` away and the bearing to
   * it differs from the heading by at most half the view angle, measured the
   * short way round.
   */
  predicate Sees(t: Traits, b: CreatureState, tx: real, ty: real, g: Trig) {
    Range(b, tx, ty, g) <= t.viewRange && AngleGap(Bearing(b, tx, ty, g) - b.dir) <= HalfAngle(t.viewAngle)
  }

  predicate SeesFood(t: Traits, b: CreatureState, food: Apple, g: Trig) {
    Sees(t, b, food.x, food.y, g)
  }

  /** A point on the edge of the cone, at exactly the view range and exactly half the view angle off, is seen. */
  lemma SeesOnBoundary(t: Traits, b: CreatureState, tx: real, ty: real, g: Trig)
    requires Range(b, tx, ty, g) == t.viewRange
    requires 0.0 <= HalfAngle(t.viewAngle)
    requires Bearing(b, tx, ty, g) - b.dir == HalfAngle(t.viewAngle) || Bearing(b, tx, ty, g) - b.dir == -HalfAngle(t.viewAngle)
    ensures Sees(t, b, tx, ty, g)
  {
    if HalfAngle(t.viewAngle) <= PI {
      AngleGapInRange(Bearing(b, tx, ty, g) - b.dir);
    }
  }

  /** A point beyond the view range is never seen, whatever its bearing. */
  lemma NotSeenBeyondRange(t: Traits, b: CreatureState, tx: real, ty: real, g: Trig)
    requires Range(b, tx, ty, g) > t.viewRange
    ensures !Sees(t, b, tx, ty, g)
  {
  }

  /**
   * A point whose bearing, brought into [-π, π] by whole turns as the vision
   * test's loops do, is more than half the view angle off the heading is
   * never seen, however close it is.
   */
  lemma NotSeenOutsideCone(t: Traits, b: CreatureState, tx: real, ty: real, g: Trig, a: real, turns: int)
    requires a == Bearing(b, tx, ty, g) - b.dir - TwoPi * turns as real
    requires -PI <= a <= PI
    requires Abs(a) > HalfAngle(t.viewAngle)
    ensures !Sees(t, b, tx, ty, g)
  {
    NormalizedGap(Bearing(b, tx, ty, g) - b.dir, a, turns);
  }

  function Dist(b: CreatureState, food: Apple, g: Trig): real {
    Range(b, food.x, food.y, g)
  }

  /**
   * The food `findNearestFood` returns: a left-to-right scan that keeps the
   * first visible food of strictly smaller distance than the best so far.
   */
  function Nearest(t: Traits, b: CreatureState, foods: seq<Apple>, g: Trig): (r: Apple?)
    ensures r != null ==> r in foods && SeesFood(t, b, r, g)
    decreases |foods|
  {
    if foods == [] then null
    else
      var best := Nearest(t, b, foods[..|foods| - 1], g);
      var food := foods[|foods| - 1];
      if SeesFood(t, b, food, g) && (best == null || Dist(b, food, g) < Dist(b, best, g)) then food
      else best
  }

  /**
   * foods[k] is visible, no visible food is closer, and every visible food
   * before it is strictly farther: it is the first of the nearest.
   */
  predicate FirstNearestAt(t: Traits, b: CreatureState, foods: seq<Apple>, g: Trig, k: int)
    requires 0 <= k < |foods|
  {
    SeesFood(t, b, foods[k], g) &&
    (forall j :: 0 <= j < |foods| && SeesFood(t, b, foods[j], g) ==> Dist(b, foods[k], g) <= Dist(b, foods[j], g)) &&
    (forall j :: 0 <= j < k && SeesFood(t, b, foods[j], g) ==> Dist(b, foods[k], g) < Dist(b, foods[j], g))
  }

  /** What `findNearestFood` promises: null exactly when nothing is visible, else the first nearest visible food. */
  predicate IsNearest(t: Traits, b: CreatureState, foods: seq<Apple>, g: Trig, r: Apple?) {
    if r == null then forall i :: 0 <= i < |foods| ==> !SeesFood(t, b, foods[i], g)
    else exists k :: 0 <= k < |foods| && foods[k] == r && FirstNearestAt(t, b, foods, g, k)
  }

  /** The scan returns the first nearest visible food, or null when no food is visible. */
  lemma {:induction false} NearestIsNearest(t: Traits, b: CreatureState, foods: seq<Apple>, g: Trig)
    ensures IsNearest(t, b, foods, g, Nearest(t, b, foods, g))
    decreases |foods|
  {
    if foods != [] {
      var n := |foods| - 1;
      var init := foods[..n];
      var best := Nearest(t, b, init, g);
      var food := foods[n];
      NearestIsNearest(t, b, init, g);
      var r := Nearest(t, b, foods, g);
      if best == null {
        assert forall i :: 0 <= i < n ==> !SeesFood(t, b, foods[i], g) by {
          forall i | 0 <= i < n ensures !SeesFood(t, b, foods[i], g) {
            assert init[i] == foods[i];
          }
        }
        if SeesFood(t, b, food, g) {
          assert FirstNearestAt(t, b, foods, g, n);
        }
      } else {
        var k :| 0 <= k < n && init[k] == best && FirstNearestAt(t, b, init, g, k);
        assert forall j :: 0 <= j < n ==> init[j] == foods[j];
        if SeesFood(t, b, food, g) && Dist(b, food, g) < Dist(b, best, g) {
          assert FirstNearestAt(t, b, foods, g, n);
        } else {
          assert FirstNearestAt(t, b, foods, g, k);
        }
      }
    }
  }

  /** At most one food satisfies the promise of `findNearestFood`, so the promise fixes the result. */
  lemma NearestUnique(t: Traits, b: CreatureState, foods: seq<Apple>, g: Trig, r1: Apple?, r2: Apple?)
    requires IsNearest(t, b, foods, g, r1) && IsNearest(t, b, foods, g, r2)
    ensures r1 == r2
  {
    if r1 != null && r2 != null {
      var k1 :| 0 <= k1 < |foods| && foods[k1] == r1 && FirstNearestAt(t, b, foods, g, k1);
      var k2 :| 0 <= k2 < |foods| && foods[k2] == r2 && FirstNearestAt(t, b, foods, g, k2);
      assert Dist(b, foods[k1], g) <= Dist(b, foods[k2], g) <= Dist(b, foods[k1], g);
    }
  }

  /**
   * One axis of the toroidal wrap: a coordinate below 0 gains one `size`, one
   * above `size` loses one, and nothing more, so only a point at most one
   * size outside lands back in [0, size].
   */
  function WrapAxis(v: real, size: real): (r: real)
    ensures r == v || r == v + size || r == v - size
    ensures 0.0 <= v <= size ==> r == v
    ensures v < 0.0 ==> r == v + size
    ensures 0.0 <= v && size < v ==> r == v - size
    ensures -size <= v <= 2.0 * size ==> 0.0 <= r <= size
  {
    if v < 0.0 then v + size
    else if v > size then v - size
    else v
  }

  function PlaceX(v: real, bounds: Option<Bounds>): real {
    if bounds.Some? then WrapAxis(v, bounds.value.w) else v
  }

  function PlaceY(v: real, bounds: Option<Bounds>): real {
    if bounds.Some? then WrapAxis(v, bounds.value.h) else v
  }

  /** A position that is in the box before one step of at most one box size per axis is in the box after it. */
  lemma WrapKeepsInBox(x: real, y: real, dx: real, dy: real, bd: Bounds)
    requires 0.0 <= x <= bd.w && 0.0 <= y <= bd.h
    requires Abs(dx) <= bd.w && Abs(dy) <= bd.h
    ensures 0.0 <= PlaceX(x + dx, Some(bd)) <= bd.w
    ensures 0.0 <= PlaceY(y + dy, Some(bd)) <= bd.h
  {
  }

  /** Energy and health within their ranges. */
  predicate InRange(t: Traits, b: CreatureState) {
    0.0 <= b.energy <= t.maxEnergy && 0.0 <= b.hp <= t.maxHp
  }

  /** A frame spent eating: the creature stays put, stops, and counts down; when the count runs out the meal takes effect. */
  function Eat(t: Traits, b: CreatureState): (r: CreatureState)
    requires b.isEating
    ensures r.x == b.x && r.y == b.y && r.dir == b.dir && r.speed == 0.0
    ensures r.eatingTimeRemaining == b.eatingTimeRemaining - 1
    ensures b.eatingTimeRemaining > 1 ==>
      r.isEating && r.energy == b.energy && r.hp == b.hp &&
      r.targetFood == b.targetFood && r.lastEatenFood == b.lastEatenFood
    ensures b.eatingTimeRemaining <= 1 ==> !r.isEating && r.targetFood == null
    ensures b.eatingTimeRemaining <= 1 && b.targetFood != null ==>
      r.hp == Clamp(b.hp + b.targetFood.nutritionValue, t.maxHp) &&
      r.energy == (if b.targetFood.poisonous then Clamp(b.energy - PoisonEnergyPenalty, t.maxEnergy) else b.energy) &&
      r.lastEatenFood == b.targetFood
    ensures b.eatingTimeRemaining <= 1 && b.targetFood == null ==>
      r.hp == b.hp && r.energy == b.energy && r.lastEatenFood == b.lastEatenFood
  {
    var c := b.(eatingTimeRemaining := b.eatingTimeRemaining - 1, speed := 0.0);
    if c.eatingTimeRemaining > 0 then c
    else if b.targetFood == null then c.(isEating := false, targetFood := null)
    else
      var food := b.targetFood;
      c.(hp := Clamp(b.hp + food.nutritionValue, t.maxHp),
         energy := if food.poisonous then Clamp(b.energy - PoisonEnergyPenalty, t.maxEnergy) else b.energy,
         lastEatenFood := food, isEating := false, targetFood := null)
  }

  /**
   * The decision half of a frame not spent eating: the nearest visible food
   * becomes the target (with none in view the old target is kept); then the
   * creature starts its meal when within 15 of the target, otherwise faces
   * it at 80% of the maximum speed, or, with no target, wanders.
   */
  function Aim(t: Traits, b: CreatureState, foods: seq<Apple>, w: Wander, g: Trig): (c: CreatureState)
    requires !b.isEating
    ensures c.x == b.x && c.y == b.y && c.energy == b.energy && c.hp == b.hp && c.lastEatenFood == b.lastEatenFood
    ensures Nearest(t, b, foods, g) != null ==> c.targetFood == Nearest(t, b, foods, g)
    ensures Nearest(t, b, foods, g) == null ==> c.targetFood == b.targetFood
    ensures c.targetFood != null && Dist(b, c.targetFood, g) < ArrivalDistance ==>
      c.isEating && c.eatingTimeRemaining == t.eatingDuration && c.dir == b.dir && c.speed == b.speed
    ensures c.targetFood != null && Dist(b, c.targetFood, g) >= ArrivalDistance ==>
      !c.isEating && c.eatingTimeRemaining == b.eatingTimeRemaining &&
      c.dir == Bearing(b, c.targetFood.x, c.targetFood.y, g) && c.speed == t.maxSpeed * HuntFactor
    ensures c.targetFood == null ==>
      !c.isEating && c.eatingTimeRemaining == b.eatingTimeRemaining &&
      (w.turnRoll >= TurnChance ==> c.dir == b.dir) &&
      (Unit(w.turnDraw) ==> Abs(c.dir - b.dir) <= PI / 4.0) &&
      c.speed == WanderBaseSpeed + w.speedDraw * WanderSpeedSpread
  {
    var seen := Nearest(t, b, foods, g);
    var target := if seen != null then seen else b.targetFood;
    if target != null then
      if Dist(b, target, g) < ArrivalDistance then
        b.(targetFood := target, isEating := true, eatingTimeRemaining := t.eatingDuration)
      else
        b.(targetFood := target, dir := Bearing(b, target.x, target.y, g), speed := t.maxSpeed * HuntFactor)
    else
      var dir := if w.turnRoll < TurnChance then b.dir + (w.turnDraw - 0.5) * (PI / 2.0) else b.dir;
      b.(dir := dir, speed := WanderBaseSpeed + w.speedDraw * WanderSpeedSpread)
  }

  /** Travel for `dt` along the heading at the current speed. */
  function Advanced(c: CreatureState, dt: real, g: Trig): CreatureState {
    c.(x := c.x + g.cos(c.dir) * c.speed * dt, y := c.y + g.sin(c.dir) * c.speed * dt)
  }

  /**
   * Energy drain after moving: energy falls by |speed|·0.02·dt but never
   * below 0; once it is gone, speed is capped at 20% of the maximum.
   */
  function Drained(t: Traits, c: CreatureState, dt: real): (r: CreatureState)
    ensures 0.0 <= r.energy
    ensures 0.0 <= dt ==> r.energy <= Max(0.0, c.energy)
    ensures r.energy <= 0.0 ==> r.speed <= c.speed && r.speed <= t.maxSpeed * ExhaustedSpeedFactor
    ensures 0.0 < r.energy ==> r.speed == c.speed
    ensures r.x == c.x && r.y == c.y && r.dir == c.dir && r.hp == c.hp
  {
    var energy := Max(0.0, c.energy - Abs(c.speed) * DrainRate * dt);
    c.(energy := energy,
       speed := if energy <= 0.0 then Min(c.speed, t.maxSpeed * ExhaustedSpeedFactor) else c.speed)
  }

  /** The toroidal wrap, applied only when bounds are given. */
  function Wrapped(c: CreatureState, bounds: Option<Bounds>): (r: CreatureState)
    ensures bounds.None? ==> r == c
    ensures bounds.Some? && -bounds.value.w <= c.x <= 2.0 * bounds.value.w ==> 0.0 <= r.x <= bounds.value.w
    ensures bounds.Some? && -bounds.value.h <= c.y <= 2.0 * bounds.value.h ==> 0.0 <= r.y <= bounds.value.h
  {
    c.(x := PlaceX(c.x, bounds), y := PlaceY(c.y, bounds))
  }

  /** A frame not spent eating: decide, then move, drain energy and wrap. */
  function Roam(t: Traits, b: CreatureState, foods: seq<Apple>, dt: real, bounds: Option<Bounds>, w: Wander, g: Trig): (r: CreatureState)
    requires !b.isEating
    ensures var c := Aim(t, b, foods, w, g);
      r.targetFood == c.targetFood && r.dir == c.dir && r.isEating == c.isEating &&
      r.eatingTimeRemaining == c.eatingTimeRemaining && r.hp == b.hp && r.lastEatenFood == b.lastEatenFood
    ensures 0.0 <= r.energy
    ensures 0.0 <= dt ==> r.energy <= Max(0.0, b.energy)
  {
    Wrapped(Drained(t, Advanced(Aim(t, b, foods, w, g), dt, g), dt), bounds)
  }

  /** One call of `update(dt, bounds, foods)`: a frame of eating, or a frame of roaming. */
  function Tick(t: Traits, b: CreatureState, foods: seq<Apple>, dt: real, bounds: Option<Bounds>, w: Wander, g: Trig): (r: CreatureState)
    // Clamped resources stay clamped.
    ensures InRange(t, b) && 0.0 <= dt ==> InRange(t, r)
    // What the world loop relies on: the target is null, kept, or one of the offered foods;
    // the eaten-food signal is either untouched or names the food just finished, with the target cleared;
    // and an eating creature always has a target.
    ensures r.targetFood == null || r.targetFood == b.targetFood || r.targetFood in foods
    ensures r.lastEatenFood == b.lastEatenFood || (r.lastEatenFood == b.targetFood && r.targetFood == null)
    ensures (b.isEating ==> b.targetFood != null) ==> (r.isEating ==> r.targetFood != null)
  {
    if b.isEating then Eat(t, b) else Roam(t, b, foods, dt, bounds, w, g)
  }

  /** A creature's state after one `update` per frame over the given frames. */
  function Run(t: Traits, b: CreatureState, frames: seq<Frame>, g: Trig): CreatureState
    decreases |frames|
  {
    if frames == [] then b
    else
      var f := frames[0];
      Run(t, Tick(t, b, f.foods, f.dt, f.bounds, f.wander, g), frames[1..], g)
  }

  /**
   * A meal with `n` frames left lasts exactly `n` more frames, whatever food,
   * bounds and random draws those frames bring: before that the creature sits
   * still with unchanged health, energy and target; on the n-th frame the
   * food's effect is applied and the food is signalled as eaten.
   */
  lemma {:induction false} MealLastsItsCountdown(t: Traits, b: CreatureState, frames: seq<Frame>, g: Trig)
    requires b.isEating && b.targetFood != null
    requires 1 <= |frames| <= b.eatingTimeRemaining
    ensures var r := Run(t, b, frames, g);
      r.x == b.x && r.y == b.y && r.dir == b.dir && r.speed == 0.0 &&
      (|frames| < b.eatingTimeRemaining ==>
        r.isEating && r.eatingTimeRemaining == b.eatingTimeRemaining - |frames| &&
        r.hp == b.hp && r.energy == b.energy && r.targetFood == b.targetFood &&
        r.lastEatenFood == b.lastEatenFood) &&
      (|frames| == b.eatingTimeRemaining ==>
        !r.isEating && r.targetFood == null && r.lastEatenFood == b.targetFood &&
        r.hp == Clamp(b.hp + b.targetFood.nutritionValue, t.maxHp) &&
        r.energy == (if b.targetFood.poisonous then Clamp(b.energy - PoisonEnergyPenalty, t.maxEnergy) else b.energy))
    decreases |frames|
  {
    var f := frames[0];
    var b1 := Tick(t, b, f.foods, f.dt, f.bounds, f.wander, g);
    assert Run(t, b, frames, g) == Run(t, b1, frames[1..], g);
    if |frames| > 1 {
      MealLastsItsCountdown(t, b1, frames[1..], g);
    }
  }

  /**
   * A meal begun on arrival takes exactly `eatingDuration` further frames:
   * the frame that starts it sets the countdown, and that many frames later
   * the food has been eaten.
   */
  lemma {:induction false} ArrivalThenMeal(t: Traits, b: CreatureState, f: Frame, frames: seq<Frame>, g: Trig)
    requires !b.isEating
    requires |frames| == t.eatingDuration >= 1
    requires var r := Tick(t, b, f.foods, f.dt, f.bounds, f.wander, g);
      r.targetFood != null && Dist(b, r.targetFood, g) < ArrivalDistance
    ensures var r := Tick(t, b, f.foods, f.dt, f.bounds, f.wander, g);
      var e := Run(t, r, frames, g);
      !e.isEating && e.lastEatenFood == r.targetFood && e.targetFood == null &&
      e.hp == Clamp(b.hp + r.targetFood.nutritionValue, t.maxHp)
  {
    var r := Tick(t, b, f.foods, f.dt, f.bounds, f.wander, g);
    MealLastsItsCountdown(t, r, frames, g);
  }
}
