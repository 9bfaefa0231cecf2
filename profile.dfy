/**
 * The user-profile fields passed to `get_gemini_response` and checked by the
 * required-field validator, with Python's truthiness (`if x:`) for each.
 */
module UserProfile {
  import opened Wrappers
  import Text

  /**
   * A float input: its value decides truthiness, its text is the opaque
   * rendering Python's f-string gives it (for instance "70.0").
   */
  datatype Measure = Measure(value: real, text: string)

  /** The arguments of `get_gemini_response` after the image; None stands for Python's None. */
  datatype Profile = Profile(
    name: Option<string>,
    age: Option<int>,
    weight: Option<Measure>,
    height: Option<Measure>,
    activity: Option<string>,
    diet: Option<string>,
    goal: Option<string>,
    tdee: Option<int>,
    bloodPressure: Option<string>,
    bloodSugar: Option<string>,
    weather: Option<string>)

  /** The fields, in the order the source tests them. */
  datatype FieldKey = Name | Age | Weight | Height | Activity | Diet | Goal | Tdee | BloodPressure | BloodSugar | Weather

  /** Position of a field in FieldOrder. */
  function Rank(k: FieldKey): nat {
    match k
    case Name => 0
    case Age => 1
    case Weight => 2
    case Height => 3
    case Activity => 4
    case Diet => 5
    case Goal => 6
    case Tdee => 7
    case BloodPressure => 8
    case BloodSugar => 9
    case Weather => 10
  }

  /** name, age, weight, height, activity, diet, goal, tdee, bp, sugar, weather. */
  const FieldOrder: seq<FieldKey> :=
    [Name, Age, Weight, Height, Activity, Diet, Goal, Tdee, BloodPressure, BloodSugar, Weather]

  /** Every key appears once, at the position its rank gives. */
  lemma FieldOrderLists(k: FieldKey)
    ensures |FieldOrder| == 11 && Rank(k) < 11 && FieldOrder[Rank(k)] == k
  {
  }

  /** Keys listed in strictly increasing rank: each at most once, in source order. */
  predicate Ordered(keys: seq<FieldKey>) {
    forall i, j :: 0 <= i < j < |keys| ==> Rank(keys[i]) < Rank(keys[j])
  }

  lemma FieldOrderOrdered()
    ensures forall i :: 0 <= i < |FieldOrder| ==> Rank(FieldOrder[i]) == i
    ensures Ordered(FieldOrder) && Ordered(FieldOrder[1..]) && Ordered(FieldOrder[..7])
  {
    assert forall i :: 0 <= i < |FieldOrder| ==> Rank(FieldOrder[i]) == i;
  }

  /** Truthiness of a string, an int and a float (`""`, `0`, `0.0` and None are falsy). */
  predicate TruthyText(s: Option<string>) { s.Some? && s.value != "" }
  predicate TruthyInt(n: Option<int>) { n.Some? && n.value != 0 }
  predicate TruthyMeasure(m: Option<Measure>) { m.Some? && m.value.value != 0.0 }

  /** The f-string rendering of a field's value when the field is truthy, None when it is falsy. */
  function Rendered(p: Profile, k: FieldKey): (r: Option<string>)
    ensures r.Some? <==> Truthy(p, k)
  {
    match k
    case Name => if TruthyText(p.name) then Some(p.name.value) else None
    case Age => if TruthyInt(p.age) then Some(Text.IntToString(p.age.value)) else None
    case Weight => if TruthyMeasure(p.weight) then Some(p.weight.value.text) else None
    case Height => if TruthyMeasure(p.height) then Some(p.height.value.text) else None
    case Activity => if TruthyText(p.activity) then Some(p.activity.value) else None
    case Diet => if TruthyText(p.diet) then Some(p.diet.value) else None
    case Goal => if TruthyText(p.goal) then Some(p.goal.value) else None
    case Tdee => if TruthyInt(p.tdee) then Some(Text.IntToString(p.tdee.value)) else None
    case BloodPressure => if TruthyText(p.bloodPressure) then Some(p.bloodPressure.value) else None
    case BloodSugar => if TruthyText(p.bloodSugar) then Some(p.bloodSugar.value) else None
    case Weather => if TruthyText(p.weather) then Some(p.weather.value) else None
  }

  /** Python's `if x:` for the field `k` of the profile. */
  predicate Truthy(p: Profile, k: FieldKey) {
    match k
    case Name => TruthyText(p.name)
    case Age => TruthyInt(p.age)
    case Weight => TruthyMeasure(p.weight)
    case Height => TruthyMeasure(p.height)
    case Activity => TruthyText(p.activity)
    case Diet => TruthyText(p.diet)
    case Goal => TruthyText(p.goal)
    case Tdee => TruthyInt(p.tdee)
    case BloodPressure => TruthyText(p.bloodPressure)
    case BloodSugar => TruthyText(p.bloodSugar)
    case Weather => TruthyText(p.weather)
  }

  /** The rendered text of a truthy field. */
  function ValueText(p: Profile, k: FieldKey): string
    requires Truthy(p, k)
  {
    Rendered(p, k).value
  }

  /**
   * The fields among `keys` whose truthiness is `truthy`, kept in the order
   * of `keys`: exactly those fields.
   */
  function SelectKeys(p: Profile, keys: seq<FieldKey>, truthy: bool): (r: seq<FieldKey>)
    ensures |r| <= |keys|
    ensures forall k :: k in r <==> k in keys && Truthy(p, k) == truthy
  {
    if keys == [] then []
    else
      var rest := SelectKeys(p, keys[1..], truthy);
      if Truthy(p, keys[0]) == truthy then [keys[0]] + rest else rest
  }

  /** A key of lower rank than every key of an ordered list can be put in front of it. */
  lemma ConsOrdered(k: FieldKey, rest: seq<FieldKey>)
    requires Ordered(rest) && forall x :: x in rest ==> Rank(k) < Rank(x)
    ensures Ordered([k] + rest)
  {
    var r := [k] + rest;
    forall i, j | 0 <= i < j < |r| ensures Rank(r[i]) < Rank(r[j]) {
      assert r[j] == rest[j - 1] && r[j] in rest;
      if i > 0 {
        assert r[i] == rest[i - 1];
      }
    }
  }

  /** Every key selected from the tail of an ordered list ranks above its head. */
  lemma SelectedFromTailRankHigher(p: Profile, keys: seq<FieldKey>, truthy: bool)
    requires keys != [] && Ordered(keys)
    ensures forall x :: x in SelectKeys(p, keys[1..], truthy) ==> Rank(keys[0]) < Rank(x)
  {
    forall x | x in SelectKeys(p, keys[1..], truthy) ensures Rank(keys[0]) < Rank(x) {
      var i :| 0 <= i < |keys[1..]| && keys[1..][i] == x;
      assert keys[i + 1] == x;
    }
  }

  /** Selecting from keys in increasing rank keeps them in increasing rank. */
  lemma {:induction false} SelectKeysOrdered(p: Profile, keys: seq<FieldKey>, truthy: bool)
    requires Ordered(keys)
    ensures Ordered(SelectKeys(p, keys, truthy))
  {
    if keys != [] {
      assert Ordered(keys[1..]);
      SelectKeysOrdered(p, keys[1..], truthy);
      var rest := SelectKeys(p, keys[1..], truthy);
      if Truthy(p, keys[0]) == truthy {
        SelectedFromTailRankHigher(p, keys, truthy);
        ConsOrdered(keys[0], rest);
        assert SelectKeys(p, keys, truthy) == [keys[0]] + rest;
      }
    }
  }

  /** Nothing is selected exactly when no field among `keys` has the wanted truthiness. */
  lemma SelectKeysEmpty(p: Profile, keys: seq<FieldKey>, truthy: bool)
    ensures SelectKeys(p, keys, truthy) == [] <==> forall i :: 0 <= i < |keys| ==> Truthy(p, keys[i]) != truthy
  {
    if SelectKeys(p, keys, truthy) != [] {
      var k := SelectKeys(p, keys, truthy)[0];
      assert k in keys;
    }
  }

  /** Selecting from a list extended by one key selects from the list, then that key if it qualifies. */
  lemma {:induction false} SelectKeysSnoc(p: Profile, keys: seq<FieldKey>, k: FieldKey, truthy: bool)
    ensures SelectKeys(p, keys + [k], truthy) ==
      SelectKeys(p, keys, truthy) + (if Truthy(p, k) == truthy then [k] else [])
  {
    if keys != [] {
      assert (keys + [k])[1..] == keys[1..] + [k];
      SelectKeysSnoc(p, keys[1..], k, truthy);
    }
  }

  /** Two profiles that agree on the truthiness of `keys` select the same keys. */
  lemma {:induction false} SelectKeysDependsOnKeysOnly(p: Profile, q: Profile, keys: seq<FieldKey>, truthy: bool)
    requires forall i :: 0 <= i < |keys| ==> Truthy(p, keys[i]) == Truthy(q, keys[i])
    ensures SelectKeys(p, keys, truthy) == SelectKeys(q, keys, truthy)
  {
    if keys != [] {
      SelectKeysDependsOnKeysOnly(p, q, keys[1..], truthy);
    }
  }
}
