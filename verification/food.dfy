/** The food item of the simulation (the `Apple` class of src/sketch.js). */
module Food {
  import opened Wrappers

  /** The fields a caller may pass to `new Apple({...})`; each one is optional. */
  datatype AppleOptions = AppleOptions(x: Option<real>, y: Option<real>,
                                       nutritionValue: Option<real>, poisonous: Option<bool>)

  /**
   * An apple never changes after construction, so its fields are constants.
   * It is a class rather than a value because the world removes "this very
   * apple" (identity, as JavaScript's indexOf compares it), not an equal one.
   */
  class Apple {
    const x: real
    const y: real
    const nutritionValue: real
    const radius: real
    const poisonous: bool

    /**
     * Missing coordinates come from the two random draws `randomX`, `randomY`
     * (Math.random() in [0, 1)) scaled to the 800 x 600 default field; an apple
     * is wholesome (nutrition 15, not poisonous) unless told otherwise.
     */
    constructor (opts: AppleOptions, randomX: real, randomY: real)
      ensures x == opts.x.GetOr(randomX * 800.0)
      ensures y == opts.y.GetOr(randomY * 600.0)
      ensures nutritionValue == opts.nutritionValue.GetOr(15.0)
      ensures poisonous == opts.poisonous.GetOr(false)
      ensures radius == 4.0
    {
      x := opts.x.GetOr(randomX * 800.0);
      y := opts.y.GetOr(randomY * 600.0);
      nutritionValue := opts.nutritionValue.GetOr(15.0);
      radius := 4.0;
      poisonous := opts.poisonous.GetOr(false);
    }
  }
}
