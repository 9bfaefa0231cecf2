/**
 * The TDEE estimator `estimate_daily_calories`: the Mifflin-St Jeor basal
 * metabolic rate (with the fixed `+5` constant of the male formula) times an
 * activity multiplier, truncated to an integer; 0 when an input is missing.
 * Arithmetic is exact over `real`: the decimal constants 6.25, 1.2, 1.55 and
 * 1.725 are taken at their written value rather than as binary floats.
 */
module Tdee {
  import opened Wrappers

  /** Python's `int(x)` on a float: truncation toward zero. */
  function Truncate(x: real): (r: int)
    ensures 0.0 <= x ==> r as real <= x < r as real + 1.0
    ensures x < 0.0 ==> r as real - 1.0 < x <= r as real
  {
    if x >= 0.0 then x.Floor else -((-x).Floor)
  }

  /** Truncation never reverses the order of two numbers. */
  lemma TruncateMonotone(x: real, y: real)
    requires x <= y
    ensures Truncate(x) <= Truncate(y)
  {
  }

  /** The multiplier table `{"Low": 1.2, "Moderate": 1.55, "High": 1.725}` with default 1.2. */
  function ActivityMultiplier(level: string): (m: real)
    ensures 1.2 <= m <= 1.725
    ensures level !in KnownLevels ==> m == 1.2
  {
    if level == "Low" then 1.2
    else if level == "Moderate" then 1.55
    else if level == "High" then 1.725
    else 1.2
  }

  /** The three activity levels the multiplier table knows. */
  const KnownLevels: set<string> := {"Low", "Moderate", "High"}

  /** Position of a known level in the order Low < Moderate < High. */
  function ActivityRank(level: string): nat
    requires level in KnownLevels
  {
    if level == "Low" then 0 else if level == "Moderate" then 1 else 2
  }

  /** A more active known level never has a smaller multiplier. */
  lemma MultiplierFollowsRank(l1: string, l2: string)
    requires l1 in KnownLevels && l2 in KnownLevels
    requires ActivityRank(l1) <= ActivityRank(l2)
    ensures ActivityMultiplier(l1) <= ActivityMultiplier(l2)
  {
  }

  /** Mifflin-St Jeor basal metabolic rate with the `+5` constant. */
  function Bmr(weight: real, height: real, age: int): real {
    10.0 * weight + 6.25 * height - 5.0 * age as real + 5.0
  }

  /** Python truthiness of the four inputs of `all([weight, height, age, activity_level])`. */
  predicate AllPresent(weight: Option<real>, height: Option<real>, age: Option<int>, activity: Option<string>) {
    weight.Some? && weight.value != 0.0 &&
    height.Some? && height.value != 0.0 &&
    age.Some? && age.value != 0 &&
    activity.Some? && activity.value != ""
  }

  /**
   * `estimate_daily_calories(weight, height, age, activity_level)`: 0 when
   * an input is falsy, otherwise the truncation toward zero of the exact
   * product of the BMR and the activity multiplier.
   */
  function EstimateDailyCalories(weight: Option<real>, height: Option<real>, age: Option<int>, activity: Option<string>): (kcal: int)
    ensures !AllPresent(weight, height, age, activity) ==> kcal == 0
    ensures AllPresent(weight, height, age, activity) ==>
      var x := Bmr(weight.value, height.value, age.value) * ActivityMultiplier(activity.value);
      (0.0 <= x ==> kcal as real <= x < kcal as real + 1.0) &&
      (x < 0.0 ==> kcal as real - 1.0 < x <= kcal as real)
  {
    if !AllPresent(weight, height, age, activity) then 0
    else Truncate(Bmr(weight.value, height.value, age.value) * ActivityMultiplier(activity.value))
  }

  /** The number-input bounds of the sidebar: age 10-100, weight 30-200 kg, height 100-250 cm. */
  predicate InSidebarBounds(weight: real, height: real, age: int) {
    30.0 <= weight <= 200.0 && 100.0 <= height <= 250.0 && 10 <= age <= 100
  }

  /** Within the sidebar bounds the BMR lies between 430 and 3517.5. */
  lemma BmrRange(weight: real, height: real, age: int)
    requires InSidebarBounds(weight, height, age)
    ensures 430.0 <= Bmr(weight, height, age) <= 3517.5
  {
  }

  /**
   * Within the sidebar bounds and with any non-empty activity level the
   * estimate is at least 516 (30 kg, 100 cm, 100 years, multiplier 1.2) and
   * at most 6067 (200 kg, 250 cm, 10 years, multiplier 1.725).
   */
  lemma EstimateRange(weight: real, height: real, age: int, activity: string)
    requires InSidebarBounds(weight, height, age) && activity != ""
    ensures 516 <= EstimateDailyCalories(Some(weight), Some(height), Some(age), Some(activity)) <= 6067
  {
    var b := Bmr(weight, height, age);
    var m := ActivityMultiplier(activity);
    BmrRange(weight, height, age);
    assert 516.0 <= b * m by {
      assert 430.0 * 1.2 <= 430.0 * m;
      assert 430.0 * m <= b * m;
    }
    assert b * m <= 6067.6875 by {
      assert b * m <= 3517.5 * m;
      assert 3517.5 * m <= 3517.5 * 1.725;
    }
    TruncateMonotone(516.0, b * m);
    TruncateMonotone(b * m, 6067.6875);
  }

  /** Both bounds of EstimateRange are reached. */
  lemma EstimateRangeIsTight()
    ensures EstimateDailyCalories(Some(30.0), Some(100.0), Some(100), Some("Low")) == 516
    ensures EstimateDailyCalories(Some(200.0), Some(250.0), Some(10), Some("High")) == 6067
  {
    assert Bmr(30.0, 100.0, 100) * 1.2 == 516.0;
    assert Bmr(200.0, 250.0, 10) * 1.725 == 6067.6875;
  }

  /** A heavier user, all else equal, never gets a smaller estimate. */
  lemma EstimateMonotoneInWeight(w1: real, w2: real, height: real, age: int, activity: string)
    requires InSidebarBounds(w1, height, age) && InSidebarBounds(w2, height, age) && activity != ""
    requires w1 <= w2
    ensures EstimateDailyCalories(Some(w1), Some(height), Some(age), Some(activity))
         <= EstimateDailyCalories(Some(w2), Some(height), Some(age), Some(activity))
  {
    var m := ActivityMultiplier(activity);
    ScaleMonotone(Bmr(w1, height, age), Bmr(w2, height, age), m);
  }

  /** A taller user, all else equal, never gets a smaller estimate. */
  lemma EstimateMonotoneInHeight(weight: real, h1: real, h2: real, age: int, activity: string)
    requires InSidebarBounds(weight, h1, age) && InSidebarBounds(weight, h2, age) && activity != ""
    requires h1 <= h2
    ensures EstimateDailyCalories(Some(weight), Some(h1), Some(age), Some(activity))
         <= EstimateDailyCalories(Some(weight), Some(h2), Some(age), Some(activity))
  {
    var m := ActivityMultiplier(activity);
    ScaleMonotone(Bmr(weight, h1, age), Bmr(weight, h2, age), m);
  }

  /** An older user, all else equal, never gets a larger estimate. */
  lemma EstimateAntitoneInAge(weight: real, height: real, a1: int, a2: int, activity: string)
    requires InSidebarBounds(weight, height, a1) && InSidebarBounds(weight, height, a2) && activity != ""
    requires a1 <= a2
    ensures EstimateDailyCalories(Some(weight), Some(height), Some(a2), Some(activity))
         <= EstimateDailyCalories(Some(weight), Some(height), Some(a1), Some(activity))
  {
    var m := ActivityMultiplier(activity);
    ScaleMonotone(Bmr(weight, height, a2), Bmr(weight, height, a1), m);
  }

  /** A more active known level, all else equal, never gets a smaller estimate. */
  lemma EstimateMonotoneInActivity(weight: real, height: real, age: int, l1: string, l2: string)
    requires InSidebarBounds(weight, height, age)
    requires l1 in KnownLevels && l2 in KnownLevels && ActivityRank(l1) <= ActivityRank(l2)
    ensures EstimateDailyCalories(Some(weight), Some(height), Some(age), Some(l1))
         <= EstimateDailyCalories(Some(weight), Some(height), Some(age), Some(l2))
  {
    var b := Bmr(weight, height, age);
    BmrRange(weight, height, age);
    MultiplierFollowsRank(l1, l2);
    var m1, m2 := ActivityMultiplier(l1), ActivityMultiplier(l2);
    assert b * m1 <= b * m2 by {
      assert b * (m2 - m1) >= 0.0;
    }
    TruncateMonotone(b * m1, b * m2);
  }

  /** Scaling two ordered BMR values by the same positive multiplier and truncating keeps their order. */
  lemma ScaleMonotone(b1: real, b2: real, m: real)
    requires b1 <= b2 && 0.0 < m
    ensures Truncate(b1 * m) <= Truncate(b2 * m)
  {
    assert (b2 - b1) * m >= 0.0;
    TruncateMonotone(b1 * m, b2 * m);
  }

  /** Worked examples: 70 kg, 170 cm, 25 years, Low gives 1971; 60 kg, 160 cm, 30 years, Moderate gives 2255. */
  lemma EstimateExamples()
    ensures EstimateDailyCalories(Some(70.0), Some(170.0), Some(25), Some("Low")) == 1971
    ensures EstimateDailyCalories(Some(60.0), Some(160.0), Some(30), Some("Moderate")) == 2255
  {
    assert Bmr(70.0, 170.0, 25) * 1.2 == 1971.0;
    assert Bmr(60.0, 160.0, 30) * 1.55 == 2255.25;
  }

  /** An unknown activity level is estimated exactly like "Low". */
  lemma UnknownLevelIsLow(weight: Option<real>, height: Option<real>, age: Option<int>, level: string)
    requires level != "" && level !in KnownLevels
    ensures EstimateDailyCalories(weight, height, age, Some(level))
         == EstimateDailyCalories(weight, height, age, Some("Low"))
  {
  }
}
