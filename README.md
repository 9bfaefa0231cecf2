# Food Calorie Estimator — a Dafny model of its deterministic core

The Food Calorie Estimator is a single Streamlit page (`app.py`). A user
uploads a photo of a meal and fills in a health profile. The page sends the
photo and a prompt built from the profile to a Gemini model. It then shows the
model's answer, framed by a greeting and a list of the inputs, and can ask a
web-search agent for more context. Around those foreign calls sit five pieces
of plain logic, and this project models them and proves what they promise:

- **TDEE estimator** (`Tdee`): `estimate_daily_calories`. This is the
  Mifflin–St Jeor basal metabolic rate with the `+5` constant, times an
  activity multiplier (1.2, 1.55 or 1.725, and 1.2 for an unknown level),
  truncated toward zero. It is 0 when an input is falsy.
- **Prompt composer** (`Prompt`): the first half of `get_gemini_response`.
  It writes one clause per truthy profile field, in a fixed order. When there
  is at least one clause, it wraps the stripped context in a fixed preamble
  in front of the analysis template.
- **Response formatter** (`Response`): the second half of
  `get_gemini_response`. It builds a greeting and an intro with one bullet per
  truthy field, then splices the model's text at the first
  `"Detailed Breakdown:"`, or falls back to the whole stripped text. It also
  covers the function's two error strings.
- **Required-field validator** (`Validation`): the block in `main` that
  appends one message per missing required field and clears `is_valid`.
- **Session state** (`Session`): the four `st.session_state` entries, their
  transitions (first run, completed analysis, image error, web search), the
  display guard, and the filter that drops `"User Data (from"` lines.

Supporting modules: `Wrappers` (an `Option` type) and `Text`, which models the
Python string built-ins the page uses: `str.strip`, `str.join`, `splitlines`,
`str(int)`, and `in` with `split(marker, 1)`, modelled by `Text.Find` and the
slice in `Response.Format`. `UserProfile` holds the
profile record and Python truthiness.

Python truthiness is modelled explicitly. A field is an `Option`, and `None`,
`""`, `0` and `0.0` are falsy. Weight and height carry their numeric value
(for truthiness and the TDEE) and their rendered text (for the f-strings).
The analysis template, the Gemini model and the search agent are parameters.
The model and the agent are functions from the prompt to `Option<string>`,
where `None` stands for a raised exception.

## Model

| member | source | states |
|---|---|---|
| Text.Strip | app.py:125 | `strip()` returns a contiguous slice of its input; everything cut from either end is whitespace (Python's `isspace` set), and the result is empty or starts and ends with non-whitespace |
| Text.StripIdempotent | app.py:125 | stripping twice is stripping once |
| Text.StripDropsFinalSpace | app.py:125 | a text whose first and second-to-last characters are not whitespace and whose last is loses exactly its last character |
| Text.Join | app.py:159 | a join of one part is that part and of none is empty; JoinEnds, JoinSplit and SplitJoin state the rest |
| Text.JoinEnds | app.py:159 | `sep.join(parts)` starts with the first part and ends with the last |
| Text.Split | app.py:482 | splitting at a character gives at least one piece, none containing that character |
| Text.JoinSplit | app.py:482-484 | joining the pieces of a split with the separator gives back the text |
| Text.SplitJoin | app.py:482-484 | splitting a join of separator-free pieces gives back the pieces |
| Text.SplitLines | app.py:482 | no line contains '\n' and the empty text has no lines; JoinSplitLines states the round trip |
| Text.JoinSplitLines | app.py:482-484 | joining the lines of a text with "\n" gives it back, less a final line break |
| Text.Find | app.py:163-165 | the index found is an occurrence of the marker with none before it; no index means no occurrence anywhere |
| Text.Contains | app.py:163 | no ensures; `m in s` is `Find(s, m).Some?`, so Find's ensures state it: true exactly when the marker occurs somewhere |
| Text.NatToStringRoundTrip | app.py:113 | the decimal rendering of a natural number reads back as that number |
| Text.IntToString | app.py:113 | the rendering of an integer is non-empty, starts with '-' exactly when the integer is negative, and its digits read back as the integer's magnitude with no leading zero |
| Tdee.Truncate | app.py:201 | `int(x)` truncates toward zero: the result is within one of `x`, on the side of zero |
| Tdee.TruncateMonotone | app.py:201 | truncation preserves order |
| Tdee.ActivityMultiplier | app.py:197-198 | the multiplier lies between 1.2 and 1.725, and any level other than the three known ones gets 1.2 |
| Tdee.MultiplierFollowsRank | app.py:197-198 | Low ≤ Moderate ≤ High in multiplier |
| Tdee.EstimateDailyCalories | app.py:185-204 | 0 when weight, height, age or activity is falsy; otherwise the truncation toward zero of (10w + 6.25h − 5a + 5) times the multiplier |
| Tdee.Bmr | app.py:194 | no ensures; BmrRange bounds it over the sidebar ranges and the monotonicity lemmas order it |
| Tdee.AllPresent | app.py:188 | no ensures; EstimateDailyCalories's ensures give 0 exactly when it fails |
| Tdee.BmrRange | app.py:194 | within the sidebar bounds (age 10–100, weight 30–200, height 100–250) the BMR lies in [430, 3517.5] |
| Tdee.EstimateRange | app.py:194-201 | within the sidebar bounds and with any non-empty level the estimate lies in [516, 6067], so it is always positive |
| Tdee.EstimateRangeIsTight | app.py:194-201 | both bounds are reached: 30 kg, 100 cm, 100 years, Low gives 516; 200 kg, 250 cm, 10 years, High gives 6067 |
| Tdee.EstimateMonotoneInWeight | app.py:194-201 | more weight never lowers the estimate |
| Tdee.EstimateMonotoneInHeight | app.py:194-201 | more height never lowers the estimate |
| Tdee.EstimateAntitoneInAge | app.py:194-201 | more age never raises the estimate |
| Tdee.EstimateMonotoneInActivity | app.py:197-201 | a higher known activity level never lowers the estimate |
| Tdee.EstimateExamples | app.py:194-201 | 70 kg, 170 cm, 25 years, Low gives 1971; 60 kg, 160 cm, 30 years, Moderate gives 2255 |
| Tdee.UnknownLevelIsLow | app.py:198 | an unknown non-empty level is estimated exactly like "Low" |
| UserProfile.FieldOrderLists | app.py:112-122 | every field has its place in the fixed field order |
| UserProfile.FieldOrderOrdered | app.py:112-122 | the fixed order lists each field once, by rank |
| UserProfile.Truthy | app.py:112-122 | no ensures; Rendered states it as Python's `if x:` on None, "", 0 and 0.0 |
| UserProfile.Rendered | app.py:112-122 | a field has a rendered value exactly when it is truthy |
| UserProfile.SelectKeys | app.py:112-122 | the selected fields are exactly the listed ones with the wanted truthiness |
| UserProfile.SelectKeysOrdered | app.py:112-122 | selection keeps the order of the list |
| UserProfile.SelectKeysEmpty | app.py:157-158 | nothing is selected exactly when no listed field has the wanted truthiness |
| UserProfile.SelectKeysSnoc | app.py:322-354 | selecting from a list grown by one field adds that field at the end when it qualifies |
| UserProfile.SelectKeysDependsOnKeysOnly | app.py:322-354 | two profiles that agree on the truthiness of the listed fields select the same fields |
| Prompt.ClauseLead | app.py:112-122 | every clause starts with 'T' |
| Prompt.ClauseTail | app.py:112-122 | every clause ends with ". " |
| Prompt.Clause | app.py:112-122 | a clause starts with 'T' and ends with ". " |
| Prompt.Clauses | app.py:111-122 | one clause per selected field |
| Prompt.Context | app.py:109-122 | no ensures; OneClausePerTruthyField, ContextEmptyIffNoTruthyField and ContextShape state it |
| Prompt.OneClausePerTruthyField | app.py:110-122 | the context holds exactly one clause per truthy field, each once, in the order name, age, weight, height, activity, diet, goal, tdee, bp, sugar, weather |
| Prompt.ContextEmptyIffNoTruthyField | app.py:124 | the context is empty exactly when no field is truthy |
| Prompt.ContextShape | app.py:112-125 | a non-empty context starts with 'T' and ends with ". " |
| Prompt.StripRemovesOnlyFinalSpace | app.py:125 | `context.strip()` removes the final space and nothing else |
| Prompt.Wrapped | app.py:125-126 | no ensures; WrappedShaped, ComposeWithContext and ComposeWithoutContext state it |
| Prompt.Compose | app.py:108-126 | no ensures; ComposeEndsWithTemplate, ComposeWithoutContext and ComposeWithContext state it |
| Prompt.WrappedShaped | app.py:124-126 | wrapping such a context gives intro + context + request + template: the space `strip()` removed comes back before the request |
| Prompt.ComposeEndsWithTemplate | app.py:108-126 | whatever the profile, the prompt ends with the template verbatim |
| Prompt.ComposeWithoutContext | app.py:108-126 | with no truthy field the prompt is the template unchanged |
| Prompt.ComposeWithContext | app.py:124-126 | with a truthy field the prompt is the fixed intro, the whole context, the fixed request and the template |
| Prompt.RadioAnswersAlwaysAddClauses | app.py:120-121 | the blood-pressure and blood-sugar answers "No" and "Yes" are truthy, so both always add their clause |
| Response.Greeting | app.py:144 | the greeting starts with the waving hand and "Hello" and ends with a comma |
| Response.GreetingNamesUser | app.py:144 | the two forms of the greeting: `👋 Hello <name>,` when the name is truthy, `👋 Hello,` otherwise |
| Response.Bullet | app.py:146-155 | every bullet starts with "- " |
| Response.DetailKeysAreTruthyDetails | app.py:145-155 | the fields the intro may list are exactly the truthy fields other than the name |
| Response.Details | app.py:145-155 | every entry of `intro_details` is a "- " bullet, and the list is empty exactly when no field other than the name is truthy |
| Response.OneBulletPerTruthyDetail | app.py:145-155 | the bullets are exactly those of the truthy fields other than the name, each once, in field order |
| Response.Intro | app.py:157-159 | no ensures; IntroListsIffSomeDetail and OneBulletPerTruthyDetail state it |
| Response.Header | app.py:144-159 | no ensures; HeaderStartsWithWave and FormatStartsWithHeader state it |
| Response.IntroListsIffSomeDetail | app.py:157-159 | the bullet block is present exactly when some field other than the name is truthy |
| Response.Format | app.py:163-170 | no ensures; FormatSplicesAtFirstMarker, FormatFallsBackToWholeText, FormatKeepsModelText, FormatStartsWithHeader and FormattedIsNotError state it |
| Response.FormatSplicesAtFirstMarker | app.py:163-167 | for text = preamble + marker + tail with no earlier marker, the output is header, bold heading and stripped tail |
| Response.FormatFallsBackToWholeText | app.py:168-170 | the `else` branch spelled out for callers: for a text without the marker the output is header, blank line and the whole stripped text, nothing of the text dropped but surrounding whitespace |
| Response.FormatKeepsModelText | app.py:163-170 | the output ends with the stripped text after the first marker, or with the whole stripped text |
| Response.HeaderStartsWithWave | app.py:144-167 | the header starts with the waving hand |
| Response.FormatStartsWithHeader | app.py:163-170 | either branch starts with greeting, space and intro |
| Response.FormattedIsNotError | app.py:141-172 | a formatted answer is non-empty and never starts with "Error: " |
| Response.ErrorStringsAreErrors | app.py:129-179 | both error strings start with "Error: " |
| Response.AnalysisText | app.py:101-179 | no ensures; AnalysisTextErrorIff states it |
| Response.AnalysisTextErrorIff | app.py:101-179 | the result is never empty; it is an error string exactly when the model object is not created, the image is not decoded or the model call fails; a failed model creation gives the no-response error even for an undecoded image |
| Validation.RequiredFields | app.py:322-354 | the checked fields are exactly name, age, weight, height, activity, diet and goal |
| Validation.MessagesDistinct | app.py:322-354 | different fields get different messages |
| Validation.CheckField | app.py:327-354 | a check clears the flag and appends the message exactly when the field is falsy |
| Validation.Validate | app.py:322-354 | the messages are the due messages of the seven fields in order, and `is_valid` holds exactly when there is none |
| Validation.MissingMessages | app.py:322-354 | no ensures; MessagesUpToSelected, OneMessagePerMissingField, ValidIffRequiredPresent and OptionalFieldsIgnored state it |
| Validation.MessagesFor | app.py:322-354 | one message per listed field |
| Validation.MessagesForAt | app.py:322-354 | message i is that of field i |
| Validation.MessagesUpToSelected | app.py:322-354 | after n checks the messages are those of the falsy fields among the first n, in order |
| Validation.OneMessagePerMissingField | app.py:322-354 | one message per falsy required field, each once, in the order name, age, weight, height, activity, diet, goal, all distinct |
| Validation.ValidIffRequiredPresent | app.py:363-381 | the analyse button is enabled exactly when all seven required fields are truthy |
| Validation.OnlyNameMissing | app.py:322-354 | when all other required fields are truthy, only the name's message can appear |
| Validation.OptionalFieldsIgnored | app.py:322-354 | tdee, blood pressure, blood sugar and weather never affect validation |
| Session.SidebarProfile | app.py:288-299 | the profile sent for analysis carries the TDEE computed from the sidebar's weight, height, age and activity |
| Session.SidebarOnlyNameCanBeMissing | app.py:288-354 | with sidebar values inside the widgets' bounds and options, the validator asks at most for the name, and the TDEE clause is present with at least 516 kcal |
| Session.SessionState.ShowsResults | app.py:394 | no ensures; the methods' ensures state when it holds (never after the constructor or ImageFailed, always after Analyse) |
| Session.SessionState.ShowsWebResult | app.py:471 | no ensures; Analyse ensures it is false after an analysis, SearchWeb keeps the results shown |
| Session.SessionState.constructor | app.py:272-279 | first run: nothing analysed, nothing searched, nothing displayed |
| Session.SessionState.RecordAnalysis | app.py:373-376 | a completed analysis stores its text, sets the processed flag and clears search result and advice |
| Session.SessionState.Analyse | app.py:363-376 | the stored text is the analysis result, error strings included, and the results area is always displayed afterwards |
| Session.SessionState.ImageFailed | app.py:383-389 | an image error resets all four entries and hides the results |
| Session.SessionState.SearchWeb | app.py:407-467 | a failed search changes nothing; a successful one stores the content as raw and structured, and keeps the analysis displayed |
| Session.KeepLines | app.py:481-484 | the kept lines are exactly the lines without the "User Data (from" tag |
| Session.KeepLinesSingle | app.py:481-484 | one line is kept exactly when it lacks the tag |
| Session.KeepLinesAppend | app.py:481-484 | filtering distributes over concatenation: the kept lines keep their order and multiplicity |
| Session.KeepLinesUnchanged | app.py:481-484 | lines without the tag are all kept |
| Session.DropUserDataLines | app.py:481-484 | no ensures; NoUserDataLineRemains and DropUserDataLinesUnchanged state it |
| Session.NoUserDataLineRemains | app.py:481-484 | no line of the filtered text carries the tag |
| Session.DropUserDataLinesUnchanged | app.py:481-484 | a text with no tagged line comes back unchanged, less a final line break |

## Left out

- The Gemini setup and calls (app.py:19-37, 107, 134) are foreign network calls. `Response.AnalysisText` takes the model as a parameter of type `string -> Option<string>`; `None` stands for any exception raised by app.py:134-170 (the call, `response.text` and the formatting). An exception while creating the model object at app.py:107, which comes before the image test, is the boolean `modelCreated`; nothing else in app.py:108-126 can raise.
- The image (app.py:129-131, 318-319) comes from PIL. Only the `isinstance` outcome is modelled, as the boolean `imageIsDecoded`; the image itself and what the model sees in it are not modelled.
- The web-search agent with its DuckDuckGo tools (app.py:410-458) is an external service. `Session.SessionState.SearchWeb` takes it as a parameter; only its success or failure, and the content it returns, reach the state.
- The analysis template `input_prompt` (app.py:41-98) and the agent's description, instructions and expected output are fixed text. The template is the parameter `template`; the agent texts are not modelled.
- Streamlit rendering (app.py:212-269, 283-319, 357-360, 395-525) is presentation: CSS, headers, spinners, `st.rerun`, warnings, errors and markdown output. The guards that decide what is drawn are modelled (`ShowsResults`, `ShowsWebResult`, `Validation.ValidIffRequiredPresent`); the drawing is not.
- `st.error` calls inside the handlers (app.py:130, 175, 203, 384, 467) are display only; their return values and state effects are modelled.
- Tdee.EstimateDailyCalories: uses exact real arithmetic, not IEEE-754 doubles. Where the exact product of the BMR and the multiplier lies at or just beside an integer, the binary product may land on the other side of it (1.55, for one, is stored slightly above its decimal value), and Python's `int()` would then give one more or one less.
- Tdee.EstimateDailyCalories: the `float()`/`int()` conversion failures caught at app.py:202-204 cannot happen in the model, whose inputs are already numbers. Truthiness follows the values: a weight or height of 0.0 and an age of 0 count as missing.
- The `-161` constant for women, mentioned in the comment at app.py:193, is not used by the code, and the model does not use it either.
- The weight and height are rendered by Python's float formatting inside the f-strings (app.py:114-115, 147-148). `UserProfile.Measure` keeps that rendering as an opaque string beside the value.
- Text.SplitLines: splits at '\n' only. Python's `splitlines` also breaks at '\r', "\r\n", '\v', '\f', '\x1c'-'\x1e', '\x85', U+2028 and U+2029, so `Session.NoUserDataLineRemains` and `Session.DropUserDataLinesUnchanged` are stated for '\n'-separated text.
- `user_label` (app.py:476-477) is computed but never used. It is not modelled.
- The static recommendations block (app.py:490-510) is fixed text and is not modelled.
- `creative_advice` is only ever set to `None`. The model keeps the field, and `Valid()` records that it stays `None`.
- Re-running the initialisation on later reruns (app.py:272-279) leaves existing entries alone. Only the first run is modelled, as the constructor.
- The agent's `web_result.content` is taken to be a string.
- The comment at app.py:169 speaks of returning the raw response, but app.py:170 strips it. The model follows the code (`Text.Strip`).
