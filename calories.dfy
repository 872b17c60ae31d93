/** The calorie estimate attached to every stored workout. */
module Calories {
  import opened Wrappers
  import opened JsNumber

  /**
   * calculateCaloriesBurnt: parseInt of the duration in minutes times
   * parseInt of the weight in kilograms, divided by 10. A weight or duration
   * that is NaN or infinite gives NaN (None). The parseFloat the caller
   * wraps around the result gives the same number back, so it is not
   * modelled separately.
   */
  function CaloriesBurnt(weight: Num, duration: Num): (c: Option<real>)
    ensures c.Some? <==> weight.Finite? && duration.Finite?
  {
    match (NumberToInt(duration), NumberToInt(weight))
    case (Some(minutes), Some(kg)) => Some((minutes * kg) as real / 10.0)
    case _ => None
  }

  /** For whole numbers the estimate is exactly weight times duration over ten. */
  lemma CaloriesOfWholeNumbers(weight: int, duration: int)
    ensures CaloriesBurnt(Finite(weight as real), Finite(duration as real))
         == Some((weight * duration) as real / 10.0)
  {
    assert Trunc(weight as real) == weight;
    assert Trunc(duration as real) == duration;
  }

  /** The fractional parts of the weight and the duration never change the estimate. */
  lemma CaloriesIgnoreFractions(weight: real, duration: real)
    ensures CaloriesBurnt(Finite(weight), Finite(duration))
         == CaloriesBurnt(Finite(Trunc(weight) as real), Finite(Trunc(duration) as real))
  {
    NumberToIntIgnoresFraction(weight);
    NumberToIntIgnoresFraction(duration);
  }

  /** Less than one whole minute, or less than one whole kilogram, burns nothing. */
  lemma CaloriesBelowOneUnit(weight: real, duration: real)
    requires (-1.0 < weight < 1.0) || (-1.0 < duration < 1.0)
    ensures CaloriesBurnt(Finite(weight), Finite(duration)) == Some(0.0)
  {
    assert Trunc(weight) == 0 || Trunc(duration) == 0;
  }

  /**
   * For a non-negative weight and duration the estimate lies between 0 and
   * the untruncated weight times duration over ten.
   */
  lemma CaloriesBounds(weight: real, duration: real)
    requires weight >= 0.0 && duration >= 0.0
    ensures CaloriesBurnt(Finite(weight), Finite(duration)).Some?
    ensures 0.0 <= CaloriesBurnt(Finite(weight), Finite(duration)).value <= weight * duration / 10.0
  {
    var w, d := Trunc(weight), Trunc(duration);
    assert 0 <= w && w as real <= weight;
    assert 0 <= d && d as real <= duration;
    assert (d * w) as real == d as real * w as real;
    assert d as real * w as real <= duration * w as real;
    assert duration * w as real <= duration * weight;
  }
}
