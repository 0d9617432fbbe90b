/**
 * The per-frame world step of `drawScene` without its drawing: the food
 * spawn counters, the list of apples, and the removal of the apple the
 * creature has just finished eating. The module-level state of the sketch
 * (`foods`, `lastFoodSpawnTime`, `foodSpawnCount`, `roaming`) is held by
 * one `World` object.
 */
module Scene {
  import opened Wrappers
  import opened Numeric
  import opened Food
  import opened Behaviour
  import opened Creature

  /** Thirty seconds at 60 frames per second. */
  const FoodSpawnInterval: int := 30 * 60
  /** Every fifth spawned apple is poisonous. */
  const PoisonPeriod: int := 5

  /** The two spawn counters: frames since the last spawn, and apples spawned so far. */
  datatype SpawnClock = SpawnClock(lastFoodSpawnTime: int, foodSpawnCount: int)

  /** Whether the frame that starts from these counters spawns an apple. */
  predicate SpawnsOn(c: SpawnClock) {
    c.lastFoodSpawnTime + 1 >= FoodSpawnInterval
  }

  /** The counters one frame later. */
  function ClockTick(c: SpawnClock): SpawnClock {
    if SpawnsOn(c) then SpawnClock(0, c.foodSpawnCount + 1)
    else SpawnClock(c.lastFoodSpawnTime + 1, c.foodSpawnCount)
  }

  /** The counters `n` frames later. */
  function ClockAfter(c: SpawnClock, n: nat): SpawnClock {
    if n == 0 then c else ClockTick(ClockAfter(c, n - 1))
  }

  /**
   * The spawn cadence: from a counter in [0, 1800), after `n` frames exactly
   * one apple has been spawned per 1800 frames elapsed, and the counter is
   * the remainder.
   */
  lemma {:induction false} SpawnCadence(c: SpawnClock, n: nat)
    requires 0 <= c.lastFoodSpawnTime < FoodSpawnInterval
    ensures ClockAfter(c, n) == SpawnClock((c.lastFoodSpawnTime + n) % FoodSpawnInterval,
                                           c.foodSpawnCount + (c.lastFoodSpawnTime + n) / FoodSpawnInterval)
  {
    if n > 0 {
      SpawnCadence(c, n - 1);
      var m := c.lastFoodSpawnTime + n - 1;
      var q, r := m / FoodSpawnInterval, m % FoodSpawnInterval;
      assert m == q * FoodSpawnInterval + r && 0 <= r < FoodSpawnInterval;
      if r + 1 == FoodSpawnInterval {
        assert m + 1 == (q + 1) * FoodSpawnInterval;
      } else {
        assert m + 1 == q * FoodSpawnInterval + (r + 1);
      }
    }
  }

  /** Whether the apple spawned as number `count` (counting from 1) is poisonous. */
  predicate PoisonousSpawn(count: int) {
    count % PoisonPeriod == 0
  }

  /** How many of the apples numbered 1 to n are poisonous. */
  function PoisonousAmong(n: nat): nat {
    if n == 0 then 0 else PoisonousAmong(n - 1) + (if PoisonousSpawn(n) then 1 else 0)
  }

  /** Of the first n spawned apples, exactly n / 5 are poisonous. */
  lemma {:induction false} OneInFivePoisonous(n: nat)
    ensures PoisonousAmong(n) == n / PoisonPeriod
  {
    if n > 0 {
      OneInFivePoisonous(n - 1);
    }
  }

  /** No apple appears twice in the list. */
  predicate Distinct(s: seq<Apple>) {
    forall i, j :: 0 <= i < j < |s| ==> s[i] != s[j]
  }

  /** JavaScript's indexOf: the first position of `a` in `s`, or -1 when it is absent. */
  function IndexOf(s: seq<Apple>, a: Apple): (r: int)
    ensures -1 <= r < |s|
    ensures r == -1 <==> a !in s
    ensures 0 <= r ==> s[r] == a && a !in s[..r]
  {
    if s == [] then -1
    else if s[0] == a then 0
    else
      var k := IndexOf(s[1..], a);
      if k == -1 then -1 else k + 1
  }

  /**
   * The list after removing the eaten apple `a` (indexOf, then splice when
   * found): only the first occurrence goes, every other apple stays, in the
   * same order; an absent apple leaves the list as it is.
   */
  function WithoutEaten(s: seq<Apple>, a: Apple): (r: seq<Apple>)
    ensures a !in s ==> r == s
    ensures a in s ==> |r| == |s| - 1
    ensures a in s ==> forall j :: 0 <= j < IndexOf(s, a) ==> r[j] == s[j]
    ensures a in s ==> forall j :: IndexOf(s, a) <= j < |r| ==> r[j] == s[j + 1]
    ensures a in s ==> multiset(r) + multiset{a} == multiset(s)
    ensures forall x :: x in s && x != a ==> x in r
    ensures Distinct(s) ==> Distinct(r) && a !in r
  {
    var i := IndexOf(s, a);
    if i == -1 then s
    else
      SpliceKeepsOthers(s, i);
      s[..i] + s[i + 1..]
  }

  /** Cutting position i out of a list shifts the later elements down by one and loses nothing else. */
  lemma SpliceKeepsOthers(s: seq<Apple>, i: int)
    requires 0 <= i < |s|
    ensures var r := s[..i] + s[i + 1..];
      |r| == |s| - 1 &&
      (forall j :: 0 <= j < i ==> r[j] == s[j]) &&
      (forall j :: i <= j < |r| ==> r[j] == s[j + 1]) &&
      multiset(r) + multiset{s[i]} == multiset(s) &&
      (forall x :: x in s && x != s[i] ==> x in r) &&
      (Distinct(s) ==> Distinct(r) && s[i] !in r)
  {
    var r := s[..i] + s[i + 1..];
    assert s == s[..i] + [s[i]] + s[i + 1..];
    forall x | x in s && x != s[i] ensures x in r {
      var k :| 0 <= k < |s| && s[k] == x;
      if k < i { assert r[k] == x; } else { assert r[k - 1] == x; }
    }
    if Distinct(s) {
      forall p, q | 0 <= p < q < |r| ensures r[p] != r[q] {
        var p', q' := if p < i then p else p + 1, if q < i then q else q + 1;
        assert r[p] == s[p'] && r[q] == s[q'];
      }
      forall k | 0 <= k < |r| ensures r[k] != s[i] {
        assert r[k] == s[if k < i then k else k + 1];
      }
    }
  }

  class World {
    var foods: seq<Apple>
    var lastFoodSpawnTime: int
    var foodSpawnCount: int
    var roaming: Robaczek?

    function Counters(): SpawnClock
      reads this
    {
      SpawnClock(lastFoodSpawnTime, foodSpawnCount)
    }

    /**
     * The world invariant between frames: the spawn counter is below the
     * interval, no apple is listed twice, and the creature has no pending
     * eaten-food signal, hunts only a listed apple, and eats only with a target.
     */
    ghost predicate Valid()
      reads this, roaming
    {
      0 <= lastFoodSpawnTime < FoodSpawnInterval && 0 <= foodSpawnCount && Distinct(foods) &&
      (roaming != null ==>
        roaming.lastEatenFood == null &&
        (roaming.targetFood != null ==> roaming.targetFood in foods) &&
        (roaming.isEating ==> roaming.targetFood != null))
    }

    /** A world holding the creature and apples that the host's setup provides, with both counters at 0. */
    constructor (roaming: Robaczek?, foods: seq<Apple>)
      requires Distinct(foods)
      requires roaming != null ==>
        roaming.lastEatenFood == null &&
        (roaming.targetFood != null ==> roaming.targetFood in foods) &&
        (roaming.isEating ==> roaming.targetFood != null)
      ensures Valid()
      ensures this.roaming == roaming && this.foods == foods
      ensures lastFoodSpawnTime == 0 && foodSpawnCount == 0
    {
      this.foods := foods;
      this.roaming := roaming;
      lastFoodSpawnTime := 0;
      foodSpawnCount := 0;
    }

    /**
     * The spawn part of a frame: count the frame; on the 1800th, append one
     * new apple at (randomX·width, randomY·height), poisonous with nutrition
     * -10 when it is the fifth, tenth, ... apple and wholesome with 15
     * otherwise, and restart the count.
     */
    method SpawnFood(width: real, height: real, randomX: real, randomY: real)
      requires Valid()
      modifies this`lastFoodSpawnTime, this`foodSpawnCount, this`foods
      ensures Valid()
      ensures Counters() == ClockTick(old(Counters()))
      ensures !SpawnsOn(old(Counters())) ==> foods == old(foods)
      ensures SpawnsOn(old(Counters())) ==>
        |foods| == |old(foods)| + 1 && foods[..|old(foods)|] == old(foods) &&
        var apple := foods[|old(foods)|];
        fresh(apple) && apple.x == randomX * width && apple.y == randomY * height &&
        apple.poisonous == PoisonousSpawn(foodSpawnCount) &&
        apple.nutritionValue == (if apple.poisonous then -10.0 else 15.0)
    {
      lastFoodSpawnTime := lastFoodSpawnTime + 1;
      if lastFoodSpawnTime >= FoodSpawnInterval {
        foodSpawnCount := foodSpawnCount + 1;
        var isPoisonous := foodSpawnCount % PoisonPeriod == 0;
        var apple := new Apple(AppleOptions(Some(randomX * width), Some(randomY * height),
                                            Some(if isPoisonous then -10.0 else 15.0), Some(isPoisonous)),
                               randomX, randomY);
        foods := foods + [apple];
        lastFoodSpawnTime := 0;
      }
    }

    /** Remove the apple the creature signalled as eaten, if it is listed, and clear the signal. */
    method RemoveEaten()
      requires roaming != null
      modifies this`foods, roaming`lastEatenFood
      ensures roaming.lastEatenFood == null
      ensures old(roaming.lastEatenFood) == null ==> foods == old(foods)
      ensures old(roaming.lastEatenFood) != null ==> foods == WithoutEaten(old(foods), old(roaming.lastEatenFood))
    {
      if roaming.lastEatenFood != null {
        var idx := IndexOf(foods, roaming.lastEatenFood);
        if idx != -1 {
          foods := foods[..idx] + foods[idx + 1..];
        }
        roaming.lastEatenFood := null;
      }
    }

    /**
     * One frame of the world, drawing aside: spawn, let the creature update
     * with dt = 1 inside the canvas bounds on the apples now listed
     * (`offered`), then remove the apple it finished eating.
     */
    method DrawScene(width: real, height: real, randomX: real, randomY: real, w: Wander, g: Trig)
      returns (ghost offered: seq<Apple>)
      requires Valid()
      modifies this, roaming
      ensures Valid()
      ensures roaming == old(roaming)
      ensures Counters() == ClockTick(old(Counters()))
      ensures SpawnsOn(old(Counters())) ==> |offered| == |old(foods)| + 1 && offered[..|old(foods)|] == old(foods)
      ensures SpawnsOn(old(Counters())) ==>
        var apple := offered[|old(foods)|];
        fresh(apple) && apple.x == randomX * width && apple.y == randomY * height &&
        apple.poisonous == PoisonousSpawn(foodSpawnCount) &&
        apple.nutritionValue == (if apple.poisonous then -10.0 else 15.0)
      ensures !SpawnsOn(old(Counters())) ==> offered == old(foods)
      ensures roaming == null ==> foods == offered
      ensures roaming != null ==>
        var next := Tick(roaming.Profile(), old(roaming.State()), offered, 1.0, Some(Bounds(width, height)), w, g);
        roaming.State() == next.(lastEatenFood := null) &&
        foods == (if next.lastEatenFood == null then offered else WithoutEaten(offered, next.lastEatenFood))
      // The apple whose meal ends this frame leaves the list, and nothing else does.
      ensures roaming != null && old(roaming.isEating) && old(roaming.eatingTimeRemaining) <= 1 ==>
        old(roaming.targetFood) != null && old(roaming.targetFood) !in foods && |foods| == |offered| - 1
    {
      SpawnFood(width, height, randomX, randomY);
      offered := foods;
      if roaming != null {
        roaming.Update(1.0, Some(Bounds(width, height)), foods, w, g);
        RemoveEaten();
      }
    }
  }
}
