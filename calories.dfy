/** The calorie estimate stored with every parsed workout. */
module Calories {
  import opened Wrappers

  const CaloriesPerMinute: real := 5.0

  /** Rounds a non-negative number to hundredths, a tie going up. */
  function RoundHalfUp(y: real): (r: real)
    requires y >= 0.0
    ensures (r * 100.0).Floor as real == r * 100.0
    ensures y - 0.005 < r <= y + 0.005
    ensures r >= 0.0
  {
    var n := (y * 100.0 + 0.5).Floor;
    HalfUpBounds(y, n);
    n as real / 100.0
  }

  lemma HalfUpBounds(y: real, n: int)
    requires y >= 0.0 && n == (y * 100.0 + 0.5).Floor
    ensures var r := n as real / 100.0;
            (r * 100.0).Floor as real == r * 100.0 && y - 0.005 < r <= y + 0.005 && r >= 0.0
  {
    assert n as real <= y * 100.0 + 0.5 < n as real + 1.0;
    var r := n as real / 100.0;
    assert r * 100.0 == n as real;
  }

  /** `x.toFixed(2)` read back as a number: the nearest whole number of
      hundredths, a tie going away from zero (toFixed rounds the magnitude). */
  function ToFixed2(x: real): (r: real)
    ensures (r * 100.0).Floor as real == r * 100.0
    ensures x >= 0.0 ==> x - 0.005 < r <= x + 0.005
    ensures x < 0.0 ==> x - 0.005 <= r < x + 0.005
    ensures x >= 0.0 ==> r >= 0.0
    ensures x <= 0.0 ==> r <= 0.0
  {
    if x < 0.0 then
      var m := RoundHalfUp(-x);
      assert (-m * 100.0).Floor == -((m * 100.0).Floor);
      -m
    else RoundHalfUp(x)
  }

  /** The contract of `ToFixed2` has one solution: whole hundredths within
      half a hundredth, the tie going away from zero, are the rounding. */
  lemma ToFixed2Unique(x: real, r: real)
    requires (r * 100.0).Floor as real == r * 100.0
    requires x >= 0.0 ==> x - 0.005 < r <= x + 0.005
    requires x < 0.0 ==> x - 0.005 <= r < x + 0.005
    ensures r == ToFixed2(x)
  {
    var t := ToFixed2(x);
    var k, j := (r * 100.0).Floor, (t * 100.0).Floor;
    assert -1.0 < r * 100.0 - t * 100.0 < 1.0;
    assert k == j;
  }

  /** A number that already is a whole number of hundredths is left alone. */
  lemma ToFixed2Exact(k: int)
    ensures ToFixed2(k as real / 100.0) == k as real / 100.0
  {
    var x := k as real / 100.0;
    if k < 0 {
      assert (-x * 100.0 + 0.5).Floor == -k;
    } else {
      assert (x * 100.0 + 0.5).Floor == k;
    }
  }

  /** Rounding to hundredths twice is rounding once. */
  lemma ToFixed2Idempotent(x: real)
    ensures ToFixed2(ToFixed2(x)) == ToFixed2(x)
  {
    var r := ToFixed2(x);
    var k := (r * 100.0).Floor;
    assert r == k as real / 100.0;
    ToFixed2Exact(k);
  }

  /** `calculateCaloriesBurnt`: duration in minutes times 5 calories a minute
      times a tenth of the weight in kilograms, an unparsed (NaN) or zero
      duration or weight counting as 0, rounded by `toFixed(2)`. */
  function CaloriesBurnt(duration: Option<real>, weight: Option<real>): (r: real)
    ensures var d, w := duration.GetOr(0.0), weight.GetOr(0.0);
            var x := d * CaloriesPerMinute * (w / 10.0);
            && (x >= 0.0 ==> x - 0.005 < r <= x + 0.005)
            && (x < 0.0 ==> x - 0.005 <= r < x + 0.005)
            && (r * 100.0).Floor as real == r * 100.0
            && (d == 0.0 || w == 0.0 ==> r == 0.0)
            && (d >= 0.0 && w >= 0.0 ==> r >= 0.0)
  {
    var durationInMinutes := duration.GetOr(0.0);
    var weightInKg := weight.GetOr(0.0);
    ToFixed2(durationInMinutes * CaloriesPerMinute * (weightInKg / 10.0))
  }

  /** NaN counts as 0: the estimate only depends on the defaulted readings. */
  lemma CaloriesOfDefaults(duration: Option<real>, weight: Option<real>)
    ensures CaloriesBurnt(duration, weight) == CaloriesBurnt(Some(duration.GetOr(0.0)), Some(weight.GetOr(0.0)))
  {
    var d, w := duration.GetOr(0.0), weight.GetOr(0.0);
    assert Some(d).GetOr(0.0) == d && Some(w).GetOr(0.0) == w;
  }

  /** 20 minutes with 50 kg: 500.00 calories. */
  lemma CaloriesExample()
    ensures CaloriesBurnt(Some(20.0), Some(50.0)) == 500.0
  {
    ToFixed2Exact(50000);
  }
}
