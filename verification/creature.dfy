/**
 * The creature (the `Robaczek` class of src/sketch.js): its fields, the
 * clamping setters, the vision test, the nearest-food scan and `update`.
 * Every method is proved against the functions of module Behaviour.
 */
module Creature {
  import opened Wrappers
  import opened Numeric
  import opened Food
  import opened Behaviour

  /** The fields a caller may pass to `new Robaczek({...})`; each one is optional. */
  datatype Options = Options(
    x: Option<real>, y: Option<real>, dir: Option<real>, speed: Option<real>,
    energy: Option<real>, hp: Option<real>,
    maxSpeed: Option<real>, maxEnergy: Option<real>, maxHp: Option<real>,
    viewAngle: Option<real>, viewRange: Option<real>)

  class Robaczek {
    var x: real
    var y: real
    var dir: real
    var speed: real
    var energy: real
    var hp: real

    const maxSpeed: real
    const maxEnergy: real
    const maxHp: real
    const viewAngle: real
    const viewRange: real

    var targetFood: Apple?
    var lastEatenFood: Apple?
    var isEating: bool
    var eatingTimeRemaining: int
    /** Three seconds at 60 frames per second. */
    const eatingDuration: int := 3 * 60

    /** The constants that `update` reads. */
    function Profile(): Traits {
      Traits(maxSpeed, maxEnergy, maxHp, viewAngle, viewRange, eatingDuration)
    }

    /** The fields that `update` changes. */
    function State(): CreatureState
      reads this
    {
      CreatureState(x, y, dir, speed, energy, hp, targetFood, lastEatenFood, isEating, eatingTimeRemaining)
    }

    /**
     * Missing options fall back to fixed defaults, or to the random draws
     * `randomDir`, `randomSpeed`, `randomView` (Math.random() in [0, 1)).
     * Energy and health default to their maxima. The values given are not
     * clamped. The creature starts with no target and not eating.
     */
    constructor (opts: Options, randomDir: real, randomSpeed: real, randomView: real)
      ensures x == opts.x.GetOr(100.0) && y == opts.y.GetOr(100.0)
      ensures dir == opts.dir.GetOr(randomDir * PI * 2.0)
      ensures speed == opts.speed.GetOr(0.5 + randomSpeed * 1.5)
      ensures energy == opts.energy.GetOr(opts.maxEnergy.GetOr(100.0))
      ensures hp == opts.hp.GetOr(opts.maxHp.GetOr(10.0))
      ensures maxSpeed == opts.maxSpeed.GetOr(4.0)
      ensures maxEnergy == opts.maxEnergy.GetOr(100.0)
      ensures maxHp == opts.maxHp.GetOr(10.0)
      ensures viewAngle == opts.viewAngle.GetOr(45.0 + randomView * (180.0 - 45.0))
      ensures viewRange == opts.viewRange.GetOr(150.0)
      ensures targetFood == null && lastEatenFood == null
      ensures !isEating && eatingTimeRemaining == 0
      ensures opts.energy.None? && opts.hp.None? && 0.0 <= maxEnergy && 0.0 <= maxHp ==> InRange(Profile(), State())
    {
      x := opts.x.GetOr(100.0);
      y := opts.y.GetOr(100.0);
      dir := opts.dir.GetOr(randomDir * PI * 2.0);
      speed := opts.speed.GetOr(0.5 + randomSpeed * 1.5);
      energy := opts.energy.GetOr(opts.maxEnergy.GetOr(100.0));
      hp := opts.hp.GetOr(opts.maxHp.GetOr(10.0));
      maxSpeed := opts.maxSpeed.GetOr(4.0);
      maxEnergy := opts.maxEnergy.GetOr(100.0);
      maxHp := opts.maxHp.GetOr(10.0);
      viewAngle := opts.viewAngle.GetOr(45.0 + randomView * (180.0 - 45.0));
      viewRange := opts.viewRange.GetOr(150.0);
      targetFood := null;
      lastEatenFood := null;
      isEating := false;
      eatingTimeRemaining := 0;
    }

    /** Speed is kept in [0, maxSpeed]; an argument already in range is taken as it is. */
    method SetSpeed(s: real)
      modifies this`speed
      ensures speed == Clamp(s, maxSpeed)
      ensures 0.0 <= speed && (0.0 <= maxSpeed ==> speed <= maxSpeed)
      ensures 0.0 <= s <= maxSpeed ==> speed == s
    {
      speed := Max(0.0, Min(maxSpeed, s));
    }

    /** Energy is kept in [0, maxEnergy]; an argument already in range is taken as it is. */
    method SetEnergy(e: real)
      modifies this`energy
      ensures energy == Clamp(e, maxEnergy)
      ensures 0.0 <= energy && (0.0 <= maxEnergy ==> energy <= maxEnergy)
      ensures 0.0 <= e <= maxEnergy ==> energy == e
    {
      energy := Max(0.0, Min(maxEnergy, e));
    }

    /** Health is kept in [0, maxHp]; an argument already in range is taken as it is. */
    method SetHp(h: real)
      modifies this`hp
      ensures hp == Clamp(h, maxHp)
      ensures 0.0 <= hp && (0.0 <= maxHp ==> hp <= maxHp)
      ensures 0.0 <= h <= maxHp ==> hp == h
    {
      hp := Max(0.0, Min(maxHp, h));
    }

    /**
     * Whether (targetX, targetY) lies in the vision cone. The bearing
     * difference is brought into [-π, π] by whole turns before it is
     * compared with half the view angle.
     */
    method IsInFOV(targetX: real, targetY: real, g: Trig) returns (visible: bool)
      ensures visible == Sees(Profile(), State(), targetX, targetY, g)
    {
      var dx := targetX - x;
      var dy := targetY - y;
      var dist := g.hypot(dx, dy);
      if dist > viewRange {
        return false;
      }
      var targetDir := g.atan2(dy, dx);
      var angleDiff := targetDir - dir;
      ghost var turns: int := 0;
      while angleDiff > PI
        invariant angleDiff == targetDir - dir - TwoPi * turns as real
        decreases (angleDiff - PI).Floor
      {
        angleDiff := angleDiff - 2.0 * PI;
        turns := turns + 1;
      }
      while angleDiff < -PI
        invariant angleDiff == targetDir - dir - TwoPi * turns as real
        invariant angleDiff <= PI
        decreases (-PI - angleDiff).Floor
      {
        angleDiff := angleDiff + 2.0 * PI;
        turns := turns - 1;
      }
      NormalizedGap(targetDir - dir, angleDiff, turns);
      var halfAngle := (viewAngle * PI / 180.0) / 2.0;
      visible := Abs(angleDiff) <= halfAngle;
    }

    /**
     * The nearest food in the vision cone: null exactly when none is
     * visible; otherwise a visible food no farther than any other visible
     * food, and the earliest in list order among equally near ones.
     */
    method FindNearestFood(foods: seq<Apple>, g: Trig) returns (nearest: Apple?)
      ensures IsNearest(Profile(), State(), foods, g, nearest)
      ensures nearest == Nearest(Profile(), State(), foods, g)
    {
      nearest := null;
      var nearestDist := 0.0;
      for i := 0 to |foods|
        invariant nearest == Nearest(Profile(), State(), foods[..i], g)
        invariant nearest != null ==> nearestDist == Dist(State(), nearest, g)
      {
        var food := foods[i];
        assert foods[..i + 1][..i] == foods[..i];
        var inView := IsInFOV(food.x, food.y, g);
        if inView {
          var dist := g.hypot(food.x - x, food.y - y);
          if nearest == null || dist < nearestDist {
            nearest := food;
            nearestDist := dist;
          }
        }
      }
      assert foods[..|foods|] == foods;
      NearestIsNearest(Profile(), State(), foods, g);
    }

    /** One frame of the creature's life: exactly the step that Behaviour.Tick describes. */
    method Update(dt: real, bounds: Option<Bounds>, foods: seq<Apple>, w: Wander, g: Trig)
      modifies this
      ensures State() == Tick(Profile(), old(State()), foods, dt, bounds, w, g)
    {
      ghost var before := State();
      if isEating {
        eatingTimeRemaining := eatingTimeRemaining - 1;
        speed := 0.0;
        if eatingTimeRemaining <= 0 {
          if targetFood != null {
            SetHp(hp + targetFood.nutritionValue);
            if targetFood.poisonous {
              SetEnergy(energy - PoisonEnergyPenalty);
            }
            lastEatenFood := targetFood;
          }
          isEating := false;
          targetFood := null;
        }
        assert State() == Eat(Profile(), before);
        return;
      }

      ChooseCourse(foods, w, g);
      Advance(dt, g);
      Drain(dt);
      Wrap(bounds);
      assert State() == Roam(Profile(), before, foods, dt, bounds, w, g);
    }

    /**
     * The decision part of `update` for a creature that is not eating:
     * retarget on the nearest visible food, then start eating, hunt or wander.
     */
    method ChooseCourse(foods: seq<Apple>, w: Wander, g: Trig)
      requires !isEating
      modifies this
      ensures State() == Aim(Profile(), old(State()), foods, w, g)
    {
      var nearestFood := FindNearestFood(foods, g);
      if nearestFood != null {
        targetFood := nearestFood;
      }

      if targetFood != null {
        var dx := targetFood.x - x;
        var dy := targetFood.y - y;
        var dist := g.hypot(dx, dy);
        if dist < ArrivalDistance {
          isEating := true;
          eatingTimeRemaining := eatingDuration;
        } else {
          dir := g.atan2(dy, dx);
          speed := maxSpeed * HuntFactor;
        }
      } else {
        if w.turnRoll < TurnChance {
          dir := dir + (w.turnDraw - 0.5) * (PI / 2.0);
        }
        speed := WanderBaseSpeed + w.speedDraw * WanderSpeedSpread;
      }
    }

    /** Movement (the first step after the decision in `update`). */
    method Advance(dt: real, g: Trig)
      modifies this
      ensures State() == Advanced(old(State()), dt, g)
    {
      x := x + g.cos(dir) * speed * dt;
      y := y + g.sin(dir) * speed * dt;
    }

    /** Energy drain when moving, and the speed cap of an exhausted creature. */
    method Drain(dt: real)
      modifies this
      ensures State() == Drained(Profile(), old(State()), dt)
    {
      energy := Max(0.0, energy - Abs(speed) * DrainRate * dt);
      if energy <= 0.0 {
        speed := Min(speed, maxSpeed * ExhaustedSpeedFactor);
      }
    }

    /** Keep inside the bounds, when there are any, by wrapping each axis at most once. */
    method Wrap(bounds: Option<Bounds>)
      modifies this
      ensures State() == Wrapped(old(State()), bounds)
    {
      if bounds.Some? {
        if x < 0.0 {
          x := x + bounds.value.w;
        } else if x > bounds.value.w {
          x := x - bounds.value.w;
        }
        if y < 0.0 {
          y := y + bounds.value.h;
        } else if y > bounds.value.h {
          y := y - bounds.value.h;
        }
      }
    }
  }
}
