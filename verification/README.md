# Robaczki: a verified model of the creature simulation

Robaczki is a small p5.js sketch. One creature, a *robaczek*, wanders a
rectangular canvas. It looks for apples inside its vision cone, hunts the
nearest one, eats it over 180 frames, and gains or loses health and energy.
Every 1800 frames a new apple appears, and every fifth one is poisonous.

This project models the simulation logic of `src/sketch.js`, with rendering
and the p5 host stripped away, and proves properties of it in Dafny.

- `wrappers.dfy` (`Wrappers`): the optional values behind the JavaScript
  `opts.v ?? default` defaulting.
- `numeric.dfy` (`Numeric`):
  - `Math.PI` as a real number;
  - `Math.min`, `Math.max` and `Math.abs`;
  - the clamp used by `setSpeed`, `setEnergy` and `setHp`;
  - `AngleGap`, the angular distance that the vision test compares with half
    the view angle;
  - `Trig`, the abstract `hypot`, `atan2`, `cos` and `sin`.
- `food.dfy` (`Food`): the `Apple` class. Its fields are constants because an
  apple never changes. It is a class rather than a value because the world
  removes *that* apple (JavaScript `indexOf` compares identity).
- `behaviour.dfy` (`Behaviour`): what one `update` call does, as functions of
  the creature's state, the apples on offer, `dt`, the bounds and the random
  draws of the frame. It holds:
  - `Eat`, `Aim`, `Advanced`, `Drained`, `Wrapped`, `Roam` and `Tick`;
  - the vision cone `Sees` and the nearest-food scan `Nearest`, with its
    characterisation;
  - `Run`, a creature over many frames, and the lemma that a meal takes
    exactly its countdown.
- `creature.dfy` (`Creature`): the `Robaczek` class. It has the source's
  fields, its clamping setters, `IsInFOV` (with the angle-normalisation
  loops), `FindNearestFood` (the linear scan) and `Update`. Each method is
  proved against the `Behaviour` functions. `Update` ends in
  `State() == Tick(Profile(), old(State()), ...)`.
- `scene.dfy` (`Scene`): the non-drawing part of `drawScene`. A `World` object
  holds the sketch's module-level state: `foods`, `lastFoodSpawnTime`,
  `foodSpawnCount` and `roaming`. The module also holds:
  - the spawn clock and its cadence lemma;
  - the "one in five is poisonous" count;
  - `IndexOf` and the splice that removes the eaten apple;
  - the world invariant `Valid()`, which `DrawScene` preserves.

The code's randomness, trigonometry and host values are parameters:
- Each `Math.random()` draw is a parameter (`randomX`, `Wander.turnRoll`, ...).
- `Math.hypot`, `Math.sqrt(dx*dx+dy*dy)`, `Math.atan2`, `Math.cos` and
  `Math.sin` are the fields of a `Trig` value.
- The canvas size `p.width`/`p.height` is passed to `DrawScene`.

Numbers are Dafny reals, so floating-point rounding, infinities and NaN are
not modelled.

## Model

| member | source | states |
|---|---|---|
| `Numeric.Clamp` | src/sketch.js:59-61 | The clamped value is never negative and never above a non-negative maximum. An argument already in [0, max] is unchanged, one above a non-negative max gives max, and a negative argument or a negative max gives 0. |
| `Creature.Robaczek.SetSpeed` | src/sketch.js:59 | Only `speed` changes. It becomes the clamp of the argument into [0, maxSpeed]. |
| `Creature.Robaczek.SetEnergy` | src/sketch.js:60 | Only `energy` changes. It becomes the clamp of the argument into [0, maxEnergy]. |
| `Creature.Robaczek.SetHp` | src/sketch.js:61 | Only `hp` changes. It becomes the clamp of the argument into [0, maxHp]. |
| `Numeric.AngleGap` | src/sketch.js:74-81 | The angular distance from the heading to the bearing, measured the short way round, lies in [0, π]. |
| `Numeric.NormalizedGap` | src/sketch.js:76-78 | Any angle that differs from d by whole turns and lies in [-π, π] has magnitude `AngleGap(d)`. So the normalisation loops compute the same `abs(angleDiff)` whether they stop on π or on -π. |
| `Numeric.AngleGapInRange` | src/sketch.js:74-81 | For a difference already in [-π, π], the angular distance is its absolute value. |
| `Numeric.AngleGapPeriodic` | src/sketch.js:76-78 | Adding whole turns (2πn) to a bearing difference does not change its angular distance `AngleGap`, the quantity the normalisation loops compute. |
| `Food.Apple.constructor` | src/sketch.js:6-12 | Missing coordinates come from random draws scaled to 800 x 600. Nutrition defaults to 15 and `poisonous` to false. The radius is 4. |
| `Creature.Robaczek.constructor` | src/sketch.js:29-57 | Each option falls back to its default or random draw. Energy and hp default to their maxima, and given values are not clamped. The creature starts with no target, no eaten-food signal, not eating, a countdown of 0 and a meal length of 180. With default energy and hp and non-negative maxima, both resources start in range. |
| `Creature.Robaczek.IsInFOV` | src/sketch.js:64-82 | The result is exactly `Sees`: the distance is at most `viewRange`, and the bearing is within half the view angle (degrees to radians) of the heading, measured the short way round. The loop invariants track the whole turns removed. |
| `Behaviour.SeesOnBoundary` | src/sketch.js:70-81 | A target exactly at `viewRange` and exactly ±half the view angle off the heading is visible. |
| `Behaviour.NotSeenBeyondRange` | src/sketch.js:70 | A target farther than `viewRange` is never visible, whatever its bearing. |
| `Behaviour.NotSeenOutsideCone` | src/sketch.js:74-81 | A point is never visible when its bearing, brought into [-π, π] by whole turns as the normalisation loops do, is more than half the view angle off the heading. This holds however close the point is. |
| `Behaviour.Nearest` | src/sketch.js:85-98 | A non-null result is one of the listed apples, and it is visible. |
| `Behaviour.NearestIsNearest` | src/sketch.js:85-98 | The scan returns null exactly when no apple is visible. Otherwise it returns a visible apple no farther than any visible apple, and every visible apple listed before it is strictly farther: ties go to the earliest, because of the strict `<`. |
| `Behaviour.NearestUnique` | src/sketch.js:85-98 | At most one result meets that description, so the description fixes the scan's answer. |
| `Creature.Robaczek.FindNearestFood` | src/sketch.js:85-98 | The loop returns the first nearest visible apple as characterised above, and it equals `Nearest`. The loop invariant ties the running minimum to the scan of the prefix. |
| `Behaviour.Eat` | src/sketch.js:103-120 | A frame of eating leaves x, y and dir unchanged, sets speed to 0 and decrements the countdown by exactly 1. Before the countdown reaches 0, energy, hp, target and signal are unchanged. When it reaches 0 with a target: hp becomes clamp(hp + nutrition), energy drops by 20 (clamped) only for a poisonous apple, `lastEatenFood` becomes the target, eating stops and the target is cleared. Without a target, only eating stops. |
| `Behaviour.Aim` | src/sketch.js:123-148 | If an apple is visible, the nearest visible apple becomes the target; otherwise the old target persists. Within 15 of the target, eating starts with a countdown of 180, and heading and speed are kept. Farther away, the creature faces the target at 0.8 x maxSpeed. With no target it wanders: it turns only on a roll below 0.03, by at most 45 degrees, at speed 0.5 + 1.5 x draw. |
| `Behaviour.Drained` | src/sketch.js:154-156 | Energy never goes below 0 and never rises for dt ≥ 0. Once energy is 0, speed is capped at 20% of the maximum and never raised. |
| `Behaviour.WrapAxis` | src/sketch.js:159-164 | Each axis is adjusted at most once, by + or - one size. A point inside is untouched. A point below 0 gains one size, and a point above size (and not below 0) loses one size, however far out it is. So a point at most one size outside lands in [0, size]. |
| `Behaviour.Wrapped` | src/sketch.js:159-164 | Without bounds the position is unchanged. With bounds, a point at most one width (height) outside lands back in [0, w] x [0, h]. |
| `Behaviour.WrapKeepsInBox` | src/sketch.js:151-164 | A creature inside the box that moves at most one box size per axis in a frame is still inside after the wrap. |
| `Behaviour.Roam` | src/sketch.js:123-164 | A non-eating frame takes its target, heading and eating decision from `Aim`. It leaves hp and the eaten-food signal alone, keeps energy non-negative and never increases it for dt ≥ 0. |
| `Behaviour.Tick` | src/sketch.js:101-165 | One `update` keeps hp and energy in their ranges. The new target is null, the old target, or one of the offered apples. The eaten-food signal is untouched, or it names the old target and the target is cleared. An eating creature always has a target. |
| `Creature.Robaczek.Update` | src/sketch.js:101-165 | The creature's fields change exactly as `Tick` says. |
| `Creature.Robaczek.ChooseCourse` | src/sketch.js:123-148 | The fields change exactly as `Aim` says. |
| `Creature.Robaczek.Advance` | src/sketch.js:151-152 | x and y advance by cos/sin(dir) x speed x dt, and nothing else changes. |
| `Creature.Robaczek.Drain` | src/sketch.js:155-156 | Energy and speed change exactly as `Drained` says. |
| `Creature.Robaczek.Wrap` | src/sketch.js:159-164 | The position changes exactly as `Wrapped` says. |
| `Behaviour.MealLastsItsCountdown` | src/sketch.js:103-120 | A meal with n frames left lasts exactly n more `update` calls, whatever food, bounds and random draws those frames bring. Before then the creature sits still with unchanged hp, energy and target. On the n-th call the apple's effect is applied and the apple is signalled as eaten. |
| `Behaviour.ArrivalThenMeal` | src/sketch.js:103-138 | After the frame in which the creature arrives within 15 of its target, exactly `eatingDuration` (180) more frames finish the meal: hp becomes clamp(hp + nutrition) and that apple is signalled as eaten. |
| `Scene.SpawnCadence` | src/sketch.js:229-241 | The counter advances every frame. From a counter in [0, 1800), after n frames exactly (counter + n) / 1800 apples have been spawned, and the counter is (counter + n) mod 1800. |
| `Scene.OneInFivePoisonous` | src/sketch.js:232-233 | Of the first n spawned apples, exactly n / 5 are poisonous. |
| `Scene.IndexOf` | src/sketch.js:255 | `indexOf` returns -1 exactly when the apple is absent; otherwise it returns the position of its first occurrence. |
| `Scene.WithoutEaten` | src/sketch.js:254-258 | Removing the eaten apple drops only its first occurrence. Apples before it keep their positions and those after shift down by one, so the relative order is kept. The multiset loses exactly that apple, and every other apple stays. In a list without repeats the apple is gone afterwards and there are still no repeats. An absent apple leaves the list unchanged. |
| `Scene.SpliceKeepsOthers` | src/sketch.js:257 | `splice(idx, 1)` shortens the list by one and shifts later elements down. It keeps every other apple and keeps a repeat-free list repeat-free. |
| `Scene.World.constructor` | src/sketch.js:220-224 | The world starts with both spawn counters at 0, holding the given creature and apples, and satisfies the world invariant. |
| `Scene.World.SpawnFood` | src/sketch.js:230-241 | The spawn counter increments. When it reaches 1800, exactly one fresh apple is appended at the random position and the counter resets to 0. That apple is poisonous with nutrition -10 exactly when the spawn count is a multiple of 5, and wholesome with 15 otherwise. On other frames the list is unchanged. |
| `Scene.World.RemoveEaten` | src/sketch.js:253-260 | When the creature signals an eaten apple, that apple's first occurrence is removed and all other apples keep their order. The signal is then cleared. |
| `Scene.World.DrawScene` | src/sketch.js:226-262 | One frame keeps the world invariant. It spawns per the clock, lets the creature take one `Tick` with dt = 1 inside the canvas bounds on the apples then listed, and removes the eaten apple. In a spawning frame, the apple appended to the offered list is fresh and placed at the random position. It is poisonous with nutrition -10 exactly when the new spawn count is a multiple of 5, and wholesome with 15 otherwise. In the frame that finishes a meal, the apple eaten is no longer listed and the list is one shorter than the list offered to the creature. |

## Left out

- Drawing is left out: `Apple.draw`, `Robaczek.draw`, `p.background` and the
  food-drawing loop in `drawScene` only issue p5 drawing calls.
- The host setup is left out: `start`, p5 `setup`, `windowResized`, canvas
  sizing and the global `window.Robaczki` object. Their only effect on the
  simulation is the initial creature and its five wholesome apples, so the
  `World` constructor takes the creature and apples as given.
- `Math.random` is not modelled as a generator. Each draw is a parameter, and
  a draw the code would not take on that path is simply unused.
- Trigonometry and square roots are given functions (`Trig`). `isInFOV`
  computes `Math.sqrt(dx*dx + dy*dy)` and the other places compute
  `Math.hypot`; both are the same `hypot`.
- Floating point is not modelled. Reals do not round, overflow to Infinity,
  or produce NaN.
- `findNearestFood` starts its running minimum at `Infinity`. The model
  instead tests `nearest == null`, which is the same for finite distances.
- `update`'s default arguments (`dt = 1`, `bounds = null`, `foods = []`) are
  not modelled: callers pass all three. `drawScene` always passes
  `1, {w, h}, foods`, and so does `DrawScene`.
- The random hex colour string is left out: it is only drawn.
- The movement tail and the decision part of `update` are helper methods of
  the class (`ChooseCourse`, `Advance`, `Drain`, `Wrap`). They run in the
  source's order with the source's statements.
- Sleeping, death and the fatigue multiplier are not modelled because the
  code has none of them.
- The code does not clamp speed everywhere: a wandering creature's speed
  0.5 + 1.5·r ignores `maxSpeed`, and the constructor does not clamp the
  values it is given. So speed in [0, maxSpeed] is not an invariant of the
  model, and `Tick` keeps only hp and energy in range.
