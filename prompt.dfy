/**
 * The prompt composer, the first half of `get_gemini_response`: one clause
 * per truthy profile field, in field order, and a preamble wrapping them in
 * front of the fixed analysis template when there is at least one.
 */
module Prompt {
  import opened Wrappers
  import Text
  import opened UserProfile

  /** The text of field `k`'s clause before its value. */
  function ClauseLead(k: FieldKey): (s: string)
    ensures |s| >= 1 && s[0] == 'T'
  {
    match k
    case Name => "The user's name is "
    case Age => "The user is "
    case Weight => "The user weighs "
    case Height => "The user is "
    case Activity => "The user's activity level is "
    case Diet => "The user's dietary preference is "
    case Goal => "The user's fitness goal is "
    // Two literals: the verifier reads the characters of short string literals only.
    case Tdee => "The user's estimated " + "daily calorie needs are "
    case BloodPressure => "The user has high blood pressure: "
    case BloodSugar => "The user has high blood sugar: "
    case Weather => "The current weather is "
  }

  /** The text of field `k`'s clause after its value. */
  function ClauseTail(k: FieldKey): (s: string)
    ensures |s| >= 2 && s[|s| - 2] == '.' && s[|s| - 1] == ' '
  {
    match k
    case Age => " years old. "
    case Weight => " kg. "
    case Height => " cm tall. "
    case Tdee => " kcal. "
    case _ => ". "
  }

  /** The sentence the source appends to the context for field `k` with rendered value `v`. */
  function Clause(k: FieldKey, v: string): (c: string)
    ensures |c| >= 2 && c[0] == 'T' && c[|c| - 2] == '.' && c[|c| - 1] == ' '
  {
    ClauseLead(k) + v + ClauseTail(k)
  }

  /** The clauses of the truthy fields, in field order. */
  function Clauses(p: Profile): (r: seq<string>)
    ensures |r| == |SelectKeys(p, FieldOrder, true)|
  {
    var ks := SelectKeys(p, FieldOrder, true);
    seq(|ks|, i requires 0 <= i < |ks| => Clause(ks[i], ValueText(p, ks[i])))
  }

  /** Clause `i` is that of the `i`-th truthy field. */
  lemma ClauseAt(p: Profile, i: nat)
    requires i < |SelectKeys(p, FieldOrder, true)|
    ensures var k := SelectKeys(p, FieldOrder, true)[i];
      Truthy(p, k) && Clauses(p)[i] == Clause(k, ValueText(p, k))
  {
  }

  /** The `context` string the source accumulates. */
  function Context(p: Profile): string {
    Text.Join("", Clauses(p))
  }

  /**
   * The context holds exactly one clause per truthy field: the clauses are
   * those of the selected keys, every truthy field is selected and no falsy
   * one, each at most once and in the order name, age, weight, height,
   * activity, diet, goal, tdee, bp, sugar, weather.
   */
  lemma OneClausePerTruthyField(p: Profile)
    ensures var ks := SelectKeys(p, FieldOrder, true);
      (forall k :: k in ks <==> Truthy(p, k)) && Ordered(ks) &&
      Context(p) == Text.Join("", Clauses(p)) && |Clauses(p)| == |ks| &&
      forall i :: 0 <= i < |ks| ==> Clauses(p)[i] == Clause(ks[i], ValueText(p, ks[i]))
  {
    FieldOrderOrdered();
    SelectKeysOrdered(p, FieldOrder, true);
    forall k ensures k in FieldOrder { FieldOrderLists(k); }
    var ks := SelectKeys(p, FieldOrder, true);
    forall i | 0 <= i < |ks| ensures Clauses(p)[i] == Clause(ks[i], ValueText(p, ks[i])) {
      ClauseAt(p, i);
    }
  }

  /** The context is empty exactly when no field is truthy. */
  lemma ContextEmptyIffNoTruthyField(p: Profile)
    ensures Context(p) == "" <==> forall k :: !Truthy(p, k)
  {
    var ks := SelectKeys(p, FieldOrder, true);
    forall k ensures k in FieldOrder { FieldOrderLists(k); }
    if ks != [] {
      Text.JoinEnds("", Clauses(p));
      ClauseAt(p, 0);
    }
  }

  /** A clause's shape: it starts with 'T' and ends with ". ". */
  predicate ClauseShaped(c: string) {
    |c| >= 2 && c[0] == 'T' && c[|c| - 2] == '.' && c[|c| - 1] == ' '
  }

  /** Clauses of that shape, run together, give a text of that shape. */
  lemma JoinedClausesShaped(cs: seq<string>)
    requires |cs| >= 1 && forall i :: 0 <= i < |cs| ==> ClauseShaped(cs[i])
    ensures ClauseShaped(Text.Join("", cs))
  {
    var c := Text.Join("", cs);
    Text.JoinEnds("", cs);
    var first, last := cs[0], cs[|cs| - 1];
    assert ClauseShaped(first) && ClauseShaped(last);
    assert c[0] == c[..|first|][0];
    assert c[|c| - 1] == c[|c| - |last|..][|last| - 1];
    assert c[|c| - 2] == c[|c| - |last|..][|last| - 2];
  }

  /** A non-empty context starts with 'T' and ends with ". ". */
  lemma ContextShape(p: Profile)
    requires Context(p) != ""
    ensures ClauseShaped(Context(p))
  {
    var cs := Clauses(p);
    assert cs != [];
    forall i | 0 <= i < |cs| ensures ClauseShaped(cs[i]) {
      ClauseAt(p, i);
    }
    JoinedClausesShaped(cs);
  }

  /** `strip()` removes the final space of a clause-shaped text and nothing else. */
  lemma StripShaped(c: string)
    requires ClauseShaped(c)
    ensures Text.Strip(c) == c[..|c| - 1]
  {
    assert !Text.IsSpace(c[0]) && Text.IsSpace(c[|c| - 1]) && !Text.IsSpace(c[|c| - 2]);
    Text.StripDropsFinalSpace(c);
  }

  /** `strip()` removes the context's final space and nothing else. */
  lemma StripRemovesOnlyFinalSpace(p: Profile)
    requires Context(p) != ""
    ensures Text.Strip(Context(p)) == Context(p)[..|Context(p)| - 1]
  {
    ContextShape(p);
    StripShaped(Context(p));
  }

  /** The text placed before the stripped context. */
  const ContextIntro := "Here is some context about the user: "

  /** The instruction placed, after one space, between the stripped context and the template. */
  const TailorRequest := "Please use this information to tailor your response, " +
    "especially the 'Health & Weather Considerations' and 'Personalized Suggestions' sections. "

  /** The template alone, or the template behind the wrapped, stripped context when there is one. */
  function Wrapped(context: string, template: string): string {
    if context != "" then ContextIntro + Text.Strip(context) + " " + TailorRequest + template
    else template
  }

  /** `prompt_text` for a profile. */
  function Compose(template: string, p: Profile): string {
    Wrapped(Context(p), template)
  }

  /** Wrapping a clause-shaped context gives the stripped final space back before the request. */
  lemma WrappedShaped(c: string, template: string)
    requires ClauseShaped(c)
    ensures Wrapped(c, template) == ContextIntro + c + TailorRequest + template
  {
    StripShaped(c);
    Text.ReattachFinalSpace(ContextIntro, c, TailorRequest, template);
  }

  /** Whatever the profile, the prompt ends with the template verbatim. */
  lemma ComposeEndsWithTemplate(template: string, p: Profile)
    ensures var r := Compose(template, p);
      |template| <= |r| && r[|r| - |template|..] == template
  {
  }

  /** With no truthy field the prompt is the template unchanged. */
  lemma ComposeWithoutContext(template: string, p: Profile)
    requires forall k :: !Truthy(p, k)
    ensures Compose(template, p) == template
  {
    ContextEmptyIffNoTruthyField(p);
  }

  /**
   * With some truthy field the prompt is the intro, the whole context (its
   * final space, removed by `strip()`, given back as the space before the
   * request), the request and the template.
   */
  lemma ComposeWithContext(template: string, p: Profile, k: FieldKey)
    requires Truthy(p, k)
    ensures Compose(template, p) == ContextIntro + Context(p) + TailorRequest + template
  {
    ContextEmptyIffNoTruthyField(p);
    ContextShape(p);
    WrappedShaped(Context(p), template);
  }

  /**
   * The blood-pressure and blood-sugar radio answers are non-empty strings,
   * so "No" yields a clause just as "Yes" does.
   */
  lemma RadioAnswersAlwaysAddClauses(p: Profile)
    requires p.bloodPressure == Some("No") || p.bloodPressure == Some("Yes")
    requires p.bloodSugar == Some("No") || p.bloodSugar == Some("Yes")
    ensures Clause(BloodPressure, p.bloodPressure.value) in Clauses(p)
    ensures Clause(BloodSugar, p.bloodSugar.value) in Clauses(p)
  {
    var ks := SelectKeys(p, FieldOrder, true);
    FieldOrderLists(BloodPressure);
    FieldOrderLists(BloodSugar);
    assert Truthy(p, BloodPressure) && Truthy(p, BloodSugar);
    assert BloodPressure in ks && BloodSugar in ks;
    var i :| 0 <= i < |ks| && ks[i] == BloodPressure;
    var j :| 0 <= j < |ks| && ks[j] == BloodSugar;
    ClauseAt(p, i);
    ClauseAt(p, j);
    assert Clauses(p)[i] == Clause(BloodPressure, p.bloodPressure.value);
    assert Clauses(p)[j] == Clause(BloodSugar, p.bloodSugar.value);
  }
}
