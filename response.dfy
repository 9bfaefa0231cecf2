/**
 * The response formatter, the second half of `get_gemini_response`: a
 * greeting, an intro listing the truthy inputs, and the model's text
 * spliced at its first "Detailed Breakdown:" marker; plus the whole
 * function's outcome, error strings included.
 */
module Response {
  import opened Wrappers
  import Text
  import opened UserProfile
  import Prompt

  /** The waving-hand emoji and "Hello" every greeting starts with. */
  const Hello := "\U{1F44B} Hello"

  /** `greeting`: the name when it is truthy, a bare greeting otherwise. */
  function Greeting(p: Profile): (g: string)
    ensures |Hello| < |g| && g[..|Hello|] == Hello && g[|g| - 1] == ','
  {
    if TruthyText(p.name) then Hello + " " + p.name.value + "," else Hello + ","
  }

  /** The greeting names the user exactly when the name is truthy. */
  lemma GreetingNamesUser(p: Profile)
    ensures TruthyText(p.name) ==> Greeting(p) == Hello + " " + p.name.value + ","
    ensures !TruthyText(p.name) ==> Greeting(p) == Hello + ","
  {
  }

  /** The bullet the intro lists for a truthy detail field `k` with rendered value `v`. */
  function Bullet(k: FieldKey, v: string): (b: string)
    requires k != Name
    ensures |b| >= 2 && b[..2] == "- "
  {
    match k
    case Age => "- Age: " + v + " years"
    case Weight => "- Weight: " + v + " kg"
    case Height => "- Height: " + v + " cm"
    case Activity => "- Activity Level: " + v
    case Diet => "- Dietary Preference: " + v
    case Goal => "- Fitness Goal: " + v
    // Two literals: the verifier reads the characters of short string literals only.
    case Tdee => "- Estimated Daily " + "Calorie Needs: " + v + " kcal"
    case BloodPressure => "- High Blood Pressure: " + v
    case BloodSugar => "- High Blood Sugar: " + v
    case Weather => "- Weather: " + v
  }

  /** The fields the intro may list: every field but the name, in the same order. */
  const DetailOrder: seq<FieldKey> := FieldOrder[1..]

  /** The detail fields selected for the intro are exactly the truthy fields other than the name. */
  lemma DetailKeysAreTruthyDetails(p: Profile)
    ensures forall k :: k in SelectKeys(p, DetailOrder, true) <==> k != Name && Truthy(p, k)
  {
    FieldOrderOrdered();
    forall k | k != Name ensures k in DetailOrder {
      FieldOrderLists(k);
      assert DetailOrder[Rank(k) - 1] == k;
    }
    assert Name !in DetailOrder;
  }

  /**
   * `intro_details`: one bullet per truthy detail field, in field order.
   * Every entry is a bullet, and the list is empty exactly when no field
   * other than the name is truthy.
   */
  function Details(p: Profile): (r: seq<string>)
    ensures |r| == |SelectKeys(p, DetailOrder, true)|
    ensures forall i :: 0 <= i < |r| ==> |r[i]| >= 2 && r[i][..2] == "- "
    ensures r == [] <==> forall k :: k != Name ==> !Truthy(p, k)
  {
    var ks := SelectKeys(p, DetailOrder, true);
    DetailKeysAreTruthyDetails(p);
    assert ks != [] ==> ks[0] in ks;
    seq(|ks|, i requires 0 <= i < |ks| => Bullet(ks[i], ValueText(p, ks[i])))
  }

  /**
   * The intro holds exactly one bullet per truthy field other than the name,
   * each at most once and in field order; the name is never listed.
   */
  lemma OneBulletPerTruthyDetail(p: Profile)
    ensures var ks := SelectKeys(p, DetailOrder, true);
      (forall k :: k in ks <==> k != Name && Truthy(p, k)) && Ordered(ks) &&
      |Details(p)| == |ks| &&
      forall i :: 0 <= i < |ks| ==> ks[i] != Name && Details(p)[i] == Bullet(ks[i], ValueText(p, ks[i]))
  {
    FieldOrderOrdered();
    SelectKeysOrdered(p, DetailOrder, true);
    DetailKeysAreTruthyDetails(p);
  }

  /** The fixed first line of the intro. */
  const IntroLine := "\nHere is the nutritional breakdown of your meal, considering your inputs:\n"

  /** `intro`: the fixed line, then the bullet block when there is at least one bullet. */
  function Intro(p: Profile): string {
    var details := Details(p);
    IntroLine + (if details != [] then "\n" + Text.Join("\n", details) + "\n" else "")
  }

  /** The bullet block is present exactly when some field other than the name is truthy. */
  lemma IntroListsIffSomeDetail(p: Profile)
    ensures Intro(p) != IntroLine <==> exists k :: k != Name && Truthy(p, k)
  {
    OneBulletPerTruthyDetail(p);
    var ks := SelectKeys(p, DetailOrder, true);
    if Intro(p) != IntroLine {
      assert ks != [] && ks[0] in ks;
    }
    if exists k :: k != Name && Truthy(p, k) {
      var k :| k != Name && Truthy(p, k);
      assert k in ks;
      assert |Intro(p)| > |IntroLine|;
    }
  }

  /** Everything before the model's own text. */
  function Header(p: Profile): string {
    Greeting(p) + " " + Intro(p)
  }

  /** The marker the formatter looks for in the model's text. */
  const Marker := "Detailed Breakdown:"

  /** The heading that replaces the marker in the output. */
  const BreakdownHeading := "\n\n**Detailed Breakdown:**\n"

  /**
   * `full_response`: the header, then either the stripped text after the
   * first marker under a bold heading, or the whole stripped text.
   */
  function Format(p: Profile, responseText: string): string {
    match Text.Find(responseText, Marker)
    case Some(k) => Header(p) + BreakdownHeading + Text.Strip(responseText[k + |Marker|..])
    case None => Header(p) + "\n\n" + Text.Strip(responseText)
  }

  /**
   * Splice: whenever the text is a preamble, the marker and a tail, with no
   * marker starting inside the preamble, the output is the header, the bold
   * heading and the stripped tail; the preamble is dropped.
   */
  lemma FormatSplicesAtFirstMarker(p: Profile, preamble: string, tail: string)
    requires forall j :: 0 <= j < |preamble| ==> !Text.OccursAt(preamble + Marker + tail, Marker, j)
    ensures Format(p, preamble + Marker + tail) == Header(p) + BreakdownHeading + Text.Strip(tail)
  {
    var t := preamble + Marker + tail;
    assert Text.OccursAt(t, Marker, |preamble|) by {
      assert t[|preamble|..|preamble| + |Marker|] == Marker;
    }
    var k := Text.Find(t, Marker).value;
    assert k == |preamble|;
    assert t[k + |Marker|..] == tail;
  }

  /** Fallback: without the marker, the output is the header and the whole stripped text. */
  lemma FormatFallsBackToWholeText(p: Profile, responseText: string)
    requires !Text.Contains(responseText, Marker)
    ensures Format(p, responseText) == Header(p) + "\n\n" + Text.Strip(responseText)
  {
  }

  /**
   * No model text is lost beyond the marker, the preamble before it and the
   * whitespace `strip()` removes (see Text.Strip): the output ends with the
   * stripped text after the first marker, or with the whole stripped text.
   */
  lemma FormatKeepsModelText(p: Profile, responseText: string)
    ensures var kept := match Text.Find(responseText, Marker)
                        case Some(k) => responseText[k + |Marker|..]
                        case None => responseText;
      var out := Format(p, responseText);
      var s := Text.Strip(kept);
      |s| <= |out| && out[|out| - |s|..] == s
  {
  }

  /** The header opens with the waving hand. */
  lemma HeaderStartsWithWave(p: Profile)
    ensures |Header(p)| >= 1 && Header(p)[0] == '\U{1F44B}'
  {
    var g := Greeting(p);
    assert Header(p)[0] == g[0] == Hello[0];
  }

  /** The formatted answer starts with the header, whichever branch is taken. */
  lemma FormatStartsWithHeader(p: Profile, responseText: string)
    ensures var out, h := Format(p, responseText), Header(p); |h| <= |out| && out[..|h|] == h
  {
  }

  /** A formatted answer starts with the waving hand, so it is never empty and never reads as an error string. */
  lemma FormattedIsNotError(p: Profile, responseText: string)
    ensures Format(p, responseText) != "" && !IsErrorText(Format(p, responseText))
  {
    var out, h := Format(p, responseText), Header(p);
    HeaderStartsWithWave(p);
    FormatStartsWithHeader(p, responseText);
    assert out[0] == out[..|h|][0] == h[0];
    assert ErrorPrefix[0] == 'E';
  }

  /** The error strings `get_gemini_response` returns. */
  const InvalidImage := "Error: Invalid image format."
  // Two literals: the verifier reads the characters of short string literals only.
  const NoResponse := "Error: Could not get " + "response from AI model."

  /** The prefix every error string starts with. */
  const ErrorPrefix := "Error: "

  predicate IsErrorText(s: string) {
    |ErrorPrefix| <= |s| && s[..|ErrorPrefix|] == ErrorPrefix
  }

  /** Both error strings read as errors. */
  lemma ErrorStringsAreErrors()
    ensures IsErrorText(InvalidImage) && IsErrorText(NoResponse)
  {
    assert InvalidImage[..|ErrorPrefix|] == ErrorPrefix;
    assert NoResponse[..|ErrorPrefix|] == ErrorPrefix;
  }

  /**
   * `get_gemini_response`: the no-response error when creating the model
   * object fails, which happens before the image is looked at; then the
   * invalid-image error when the image is not a decoded picture; otherwise
   * the model, given the composed prompt, either fails (None), giving the
   * no-response error, or answers with text that is formatted.
   */
  function AnalysisText(p: Profile, template: string, modelCreated: bool, imageIsDecoded: bool,
                        model: string -> Option<string>): string {
    if !modelCreated then NoResponse
    else if !imageIsDecoded then InvalidImage
    else match model(Prompt.Compose(template, p))
      case None => NoResponse
      case Some(text) => Format(p, text)
  }

  /**
   * The analysis text is never empty, and it is an error string exactly
   * when the model object is not created, the image is not decoded or the
   * model call fails; a failed model creation wins over an undecoded image.
   */
  lemma AnalysisTextErrorIff(p: Profile, template: string, modelCreated: bool, imageIsDecoded: bool,
                             model: string -> Option<string>)
    ensures var r := AnalysisText(p, template, modelCreated, imageIsDecoded, model);
      r != "" &&
      (IsErrorText(r) <==> !modelCreated || !imageIsDecoded || model(Prompt.Compose(template, p)).None?) &&
      (!modelCreated ==> r == NoResponse) &&
      (modelCreated && !imageIsDecoded ==> r == InvalidImage)
  {
    ErrorStringsAreErrors();
    if modelCreated && imageIsDecoded {
      match model(Prompt.Compose(template, p))
      case None =>
      case Some(text) => FormattedIsNotError(p, text);
    }
  }
}
