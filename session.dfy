/**
 * The page's session state: the four entries `main` keeps between reruns,
 * the transitions that assign them (first run, analysis completed,
 * image-processing error, web search), the guard that decides when results
 * are displayed, and the filter applied to the web-search text before it is
 * shown.
 */
module Session {
  import opened Wrappers
  import Text
  import opened UserProfile
  import Tdee
  import Validation
  import Response

  /** What a successful web search stores: the agent's content under both keys. */
  datatype WebResult = WebResult(raw: string, structured: string)

  /** The profile handed to the analysis, read from the sidebar and the name box. */
  function SidebarProfile(
    name: string, age: int, weight: Measure, height: Measure,
    activity: string, diet: string, goal: string,
    bloodPressure: string, bloodSugar: string, weather: string): (p: Profile)
    ensures p.tdee == Some(Tdee.EstimateDailyCalories(Some(weight.value), Some(height.value), Some(age), Some(activity)))
    ensures Truthy(p, Name) <==> name != ""
  {
    Profile(
      Some(name), Some(age), Some(weight), Some(height),
      Some(activity), Some(diet), Some(goal),
      Some(Tdee.EstimateDailyCalories(Some(weight.value), Some(height.value), Some(age), Some(activity))),
      Some(bloodPressure), Some(bloodSugar), Some(weather))
  }

  /**
   * With sidebar values inside the widgets' bounds and options, only the
   * name can be missing: the validator asks for the name alone or for
   * nothing, and the profile always carries a TDEE of at least 516 kcal.
   */
  lemma SidebarOnlyNameCanBeMissing(
    name: string, age: int, weight: Measure, height: Measure,
    activity: string, diet: string, goal: string,
    bloodPressure: string, bloodSugar: string, weather: string)
    requires Tdee.InSidebarBounds(weight.value, height.value, age)
    requires activity != "" && diet != "" && goal != ""
    ensures var p := SidebarProfile(name, age, weight, height, activity, diet, goal, bloodPressure, bloodSugar, weather);
      Validation.MissingMessages(p) == (if name == "" then [Validation.Message(Name)] else []) &&
      Truthy(p, Tdee) && p.tdee.value >= 516
  {
    var p := SidebarProfile(name, age, weight, height, activity, diet, goal, bloodPressure, bloodSugar, weather);
    Tdee.EstimateRange(weight.value, height.value, age, activity);
    assert forall k: Validation.Required :: k != Name ==> Truthy(p, k);
    Validation.OnlyNameMissing(p);
  }

  class SessionState {
    var calorieInfo: Option<string>
    var imageProcessed: bool
    var additionalInfo: Option<WebResult>
    var creativeAdvice: Option<string>

    /** The display guard `image_processed and calorie_info`: the results area is drawn. */
    predicate ShowsResults()
      reads this
    {
      imageProcessed && calorieInfo.Some? && calorieInfo.value != ""
    }

    /** The web-search panel is drawn: inside the results area, when a search result is stored. */
    predicate ShowsWebResult()
      reads this
    {
      ShowsResults() && additionalInfo.Some?
    }

    /**
     * What every reachable state satisfies: a search result exists only
     * beside a displayed analysis, and creative advice is never set.
     */
    predicate Valid()
      reads this
    {
      (additionalInfo.Some? ==> ShowsResults()) && creativeAdvice.None?
    }

    /** The first run of the page: nothing analysed, nothing searched. */
    constructor()
      ensures calorieInfo.None? && !imageProcessed && additionalInfo.None? && creativeAdvice.None?
      ensures Valid() && !ShowsResults()
    {
      calorieInfo := None;
      imageProcessed := false;
      additionalInfo := None;
      creativeAdvice := None;
    }

    /** A completed analysis: its text is stored and earlier search and advice are dropped. */
    method RecordAnalysis(result: string)
      modifies this
      ensures calorieInfo == Some(result) && imageProcessed
      ensures additionalInfo.None? && creativeAdvice.None?
      ensures Valid()
      ensures ShowsResults() <==> result != ""
    {
      calorieInfo := Some(result);
      imageProcessed := true;
      additionalInfo := None;
      creativeAdvice := None;
    }

    /**
     * A click on the analyse button, which is offered only when the
     * validator reports nothing missing: the analysis text, an error string
     * included, is stored and always displayed.
     */
    method Analyse(p: Profile, template: string, modelCreated: bool, imageIsDecoded: bool,
                   model: string -> Option<string>)
      requires Validation.MissingMessages(p) == []
      modifies this
      ensures calorieInfo == Some(Response.AnalysisText(p, template, modelCreated, imageIsDecoded, model))
      ensures additionalInfo.None? && creativeAdvice.None?
      ensures Valid() && ShowsResults() && !ShowsWebResult()
    {
      var result := Response.AnalysisText(p, template, modelCreated, imageIsDecoded, model);
      Response.AnalysisTextErrorIff(p, template, modelCreated, imageIsDecoded, model);
      RecordAnalysis(result);
    }

    /** An exception while opening or processing the upload: all four entries are reset. */
    method ImageFailed()
      modifies this
      ensures calorieInfo.None? && !imageProcessed && additionalInfo.None? && creativeAdvice.None?
      ensures Valid() && !ShowsResults()
    {
      calorieInfo := None;
      imageProcessed := false;
      additionalInfo := None;
      creativeAdvice := None;
    }

    /**
     * A click on the search button, drawn only inside the results area. The
     * agent runs on the stored analysis; its failure changes nothing, its
     * content `c` is stored as `{raw: c, structured: c}`.
     */
    method SearchWeb(agent: string -> Option<string>)
      requires Valid() && ShowsResults()
      modifies this
      ensures calorieInfo == old(calorieInfo) && imageProcessed == old(imageProcessed)
      ensures creativeAdvice == old(creativeAdvice)
      ensures agent(old(calorieInfo).value).None? ==> additionalInfo == old(additionalInfo)
      ensures agent(old(calorieInfo).value).Some? ==>
        var c := agent(old(calorieInfo).value).value;
        additionalInfo == Some(WebResult(c, c))
      ensures Valid() && ShowsResults()
    {
      match agent(calorieInfo.value)
      case None =>
      case Some(c) =>
        additionalInfo := Some(WebResult(c, c));
    }
  }

  /** The tag of lines the summary leaves out. */
  const UserDataTag := "User Data (from"

  /** The lines without the tag, in their order. */
  function KeepLines(lines: seq<string>): (r: seq<string>)
    ensures |r| <= |lines|
    ensures forall l :: l in r <==> l in lines && !Text.Contains(l, UserDataTag)
  {
    if lines == [] then []
    else
      var rest := KeepLines(lines[1..]);
      assert forall l :: l in lines <==> l == lines[0] || l in lines[1..];
      if Text.Contains(lines[0], UserDataTag) then rest else [lines[0]] + rest
  }

  /** A list none of whose lines carries the tag is kept whole. */
  lemma {:induction false} KeepLinesUnchanged(lines: seq<string>)
    requires forall i :: 0 <= i < |lines| ==> !Text.Contains(lines[i], UserDataTag)
    ensures KeepLines(lines) == lines
  {
    if lines != [] {
      KeepLinesUnchanged(lines[1..]);
    }
  }

  /** A single line is kept exactly when it does not carry the tag. */
  lemma KeepLinesSingle(l: string)
    ensures KeepLines([l]) == if Text.Contains(l, UserDataTag) then [] else [l]
  {
    assert [l][1..] == [];
  }

  /**
   * Filtering distributes over concatenation, so the kept lines come in
   * their original order, each as often as it occurs.
   */
  lemma {:induction false} KeepLinesAppend(a: seq<string>, b: seq<string>)
    ensures KeepLines(a + b) == KeepLines(a) + KeepLines(b)
  {
    if a == [] {
      assert a + b == b;
    } else {
      assert (a + b)[0] == a[0];
      assert (a + b)[1..] == a[1..] + b;
      KeepLinesAppend(a[1..], b);
    }
  }

  /** The structured search text with every line carrying the tag removed. */
  function DropUserDataLines(s: string): string {
    Text.Join("\n", KeepLines(Text.SplitLines(s)))
  }

  /** No line of the filtered text carries the tag. */
  lemma NoUserDataLineRemains(s: string)
    ensures forall l :: l in Text.Split(DropUserDataLines(s), '\n') ==> !Text.Contains(l, UserDataTag)
  {
    var kept := KeepLines(Text.SplitLines(s));
    if kept == [] {
      assert DropUserDataLines(s) == "";
      assert Text.Split("", '\n') == [""];
      assert !Text.OccursAt("", UserDataTag, 0);
    } else {
      forall i | 0 <= i < |kept| ensures '\n' !in kept[i] {
        assert kept[i] in Text.SplitLines(s);
      }
      Text.SplitJoin(kept, '\n');
      assert Text.Join("\n", kept) == Text.Join(['\n'], kept);
    }
  }

  /**
   * A text without tagged lines comes back unchanged, except that a final
   * line break is dropped, as `splitlines` followed by `join` does.
   */
  lemma DropUserDataLinesUnchanged(s: string)
    requires forall l :: l in Text.SplitLines(s) ==> !Text.Contains(l, UserDataTag)
    ensures DropUserDataLines(s) + (if s != "" && s[|s| - 1] == '\n' then "\n" else "") == s
  {
    var lines := Text.SplitLines(s);
    assert forall i :: 0 <= i < |lines| ==> lines[i] in lines;
    KeepLinesUnchanged(lines);
    Text.JoinSplitLines(s);
  }
}
