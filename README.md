# webpage-reporter in Dafny

A verified model of the core of webpage-reporter, a two-stage website audit.

- **The pipeline.** The client asks a proxy server for PageSpeed Insights telemetry for a URL. It normalises the raw Lighthouse report into a fixed-shape `PSIData`. It then asks the server for a generative analysis of that data plus the page's screenshot, and shows the report.
- **What the model covers:**
  - the telemetry normalisation of the PageSpeed service;
  - the audit state machine of the app;
  - the request checks and request assembly of the two server endpoints;
  - the small string and ordering rules of the form, the dashboard and the score gauge.
- **External calls are inputs.** The two remote services, `fetch` and `JSON.parse` appear only as parameters that say what the call produced: a value, or a failure with a message.

Files and modules:

| file | module | models |
|---|---|---|
| `types.dfy` | `Types` | the records and enumerations of `types.ts`, plus the raw Lighthouse report (typed `any` in the source), and `Truthy`, the test `||` applies to an optional string |
| `stable_sort.dfy` | `StableSort` | the stable sort `Array.prototype.sort` performs with a numeric comparator; proved sorted, a permutation, stable, and the only stable ordering |
| `text.dfy` | `Text` | `String.prototype.trim` (ECMAScript whitespace and line terminators) and `join('\n')`; `SplitLines` is a device of the model, used only to state that the join can be undone, since the source never splits |
| `psi_service.dfy` | `PsiService` | `fetchPageSpeedData` after the HTTP exchange: category scores, screenshot, key metrics, per-category top issues |
| `server.dfy` | `Server` | `/api/psi` checks and query; `/api/analyze` checks, data-URI stripping, goal default, metric lines, the `parts` list, and the reply to the model's answer |
| `app.dfy` | `App` | the class `AnalysisSession`: the state field of `App`, `handleAnalyze`'s transitions, "Try Again", `isLoading` and the dashboard condition |
| `dashboard.dfy` | `Dashboard` | the in-place priority sort of the action items, markdown-link stripping, the reasoning fallback |
| `input_form.dfy` | `InputForm` | `handleSubmit`'s guard and URL normalisation, the submit-disabled predicate |
| `score_gauge.dfy` | `ScoreGauge` | the gauge colour |

Some properties of `types.ts` hold by construction:
- `Category` and `Priority` are datatypes with exactly three constructors;
- `AnalysisStage` has exactly five;
- `AnalysisState` is the flat record of optional parts the source uses, so nothing in the type ties data to a stage. `App.StageCarries` and the session's `Valid()` invariant state the pairing that the transitions establish.

Behaviour of the code that the model keeps, and that a reader might not expect:
- **Reset.** "Try Again" is only offered in the Error stage, so `TryAgain` requires that stage. No other stage can be reset.
- **Result validation.** The analysis result is never validated against the response schema. The server forwards whatever `JSON.parse` returns, and the client casts it. There is no schema-violation outcome, and a JSON `null` reaches the Complete stage as a missing result, which is why the dashboard condition checks for it.
- **Data kept on failure.** A failure at either network stage keeps no data in the Error state, not even telemetry that had already arrived before the analysis failed.
- **Overlapping runs.** `handleAnalyze` has no re-entry guard of its own. Overlap is prevented only by the form's `isLoading` check. The model states this as `Begin`'s precondition, which `Submit` establishes through `InputForm.HandleSubmit`.

## Model

| member | source | states |
|---|---|---|
| Text.TrimStart | components/InputForm.tsx:16 | the result is the suffix of the input after its longest all-whitespace prefix |
| Text.TrimEnd | components/InputForm.tsx:16 | the result is the prefix of the input before its longest all-whitespace suffix |
| Text.Trim | components/InputForm.tsx:16 | `trim()`: what it returns is stated by `TrimStart`, `TrimEnd` and `TrimProperties` |
| Text.TrimProperties | components/InputForm.tsx:16 | trimming leaves no whitespace at either end, leaves a trimmed string unchanged, and is idempotent |
| Text.SplitJoinLines | server.ts:135 | lines without line breaks, joined with "\n", split back into exactly those lines |
| StableSort.SortBy | services/psiService.ts:64 | the stable sort by a numeric key; its properties are stated by `SortByCorrect`, `SortByStable` and `SortByIsTheStableSort` |
| StableSort.SortByCorrect | services/psiService.ts:64 | the sort returns a permutation of its input, ordered by non-decreasing key |
| StableSort.SortByStable | services/psiService.ts:64 | for every key, the elements carrying it keep their input order |
| StableSort.SortByIsTheStableSort | services/psiService.ts:64 | every key-sorted ordering that keeps each key's input order equals SortBy, so SortBy is what the stable engine sort returns |
| PsiService.MathRound | services/psiService.ts:41 | `Math.round`: the integer within one half of x, with halves going up |
| PsiService.CategoryScore | services/psiService.ts:41 | 0 for an absent category or a null score; otherwise score×100 rounded half up; within 0..100 for a score between 0 and 1 |
| PsiService.Screenshot | services/psiService.ts:38 | the screenshot audit's `details.data` when present and non-empty, otherwise null |
| PsiService.Metrics | services/psiService.ts:69-88 | exactly three metrics lcp, cls, inp in that order with their fixed titles; score and display value come from the matching audit, or are undefined when it is absent |
| PsiService.EligibleRefs | services/psiService.ts:49-53 | a ref passes the filter iff its weight is positive and its audit exists with a numeric score below 0.9 |
| PsiService.HttpErrorMessage | services/psiService.ts:22-28 | a failed response reports the error body's message, or the status text when that message is missing or empty |
| PsiService.AbsentCategoryHasNoIssues | services/psiService.ts:45-46 | a category missing from the report has an empty issue list |
| PsiService.CategoryIssues | services/psiService.ts:44-66 | `getCategoryIssues`: stated by `AbsentCategoryHasNoIssues`, `IssuesFailIff` and the `Issues…` lemmas below |
| PsiService.IssuesFailIff | services/psiService.ts:49-53 | collecting issues throws exactly when a positive-weight ref names an audit the report lacks and that is not a member every object inherits (`constructor`, `toString`, ...), with the TypeError's message |
| PsiService.InheritedIdIsSkipped | services/psiService.ts:51-52 | a ref named `constructor` with no such audit finds the inherited member, which has no score: nothing throws, the ref is skipped and the report is normalised |
| PsiService.EligibleDetailsAreEligible | services/psiService.ts:54-63 | each mapped issue is built from an eligible ref of the category: the ref's id plus its audit's fields |
| PsiService.TopIssuesProperties | services/psiService.ts:64-65 | sort-then-slice gives min(5, n) elements: a prefix of the sorted input, sorted, drawn from the input |
| PsiService.IssuesAreEligible | services/psiService.ts:48-63 | every issue has a numeric score below 0.9 and copies the fields of an audit named by a positive-weight ref |
| PsiService.IssuesSorted | services/psiService.ts:64 | issues are ordered by non-decreasing score |
| PsiService.IssuesCount | services/psiService.ts:65 | there are min(5, number of eligible refs) issues |
| PsiService.IssuesAreWorst | services/psiService.ts:64-65 | no eligible audit that was cut scores below an issue that was kept |
| PsiService.TopIssuesAreWorst | services/psiService.ts:64-65 | of any list of issues, sorting by score and keeping five drops none that scores below a kept one |
| PsiService.IssuesKeepRefOrder | services/psiService.ts:64-65 | among equal scores, the kept issues are the first such ones in `auditRefs` order |
| PsiService.IssuesArePrefixOfStableSort | services/psiService.ts:48-65 | the issue list is a prefix of any score-sorted, order-keeping arrangement of the eligible issues |
| PsiService.NormalizeReport | services/psiService.ts:30-100 | the report after parsing: stated by `NoLighthouseNoData`, `NormalizedReport` and `ExampleSingleIssue` |
| PsiService.FetchPageSpeedData | services/psiService.ts:12-35 | `fetchPageSpeedData` given the exchange's outcome: stated by `FetchOutcome` |
| PsiService.NoLighthouseNoData | services/psiService.ts:31-35 | a reply without `lighthouseResult` fails with the "No Lighthouse data received" message and yields no PSIData |
| PsiService.NormalizedReport | services/psiService.ts:90-100 | a normalised report has percent scores in 0..100, at most five issues per list, all scoring below 0.9, three metrics, and the raw audits passed through |
| PsiService.FetchOutcome | services/psiService.ts:20-35 | a failed exchange fails with its own message; a non-ok reply fails with the error body's message, or the status text when that is missing or empty; an ok reply is normalised |
| PsiService.ExampleSingleIssue | services/psiService.ts:41-100 | a category score of 0.42 becomes 42, and a lone eligible audit scoring 0.3 is the only issue |
| Server.CategoryParams | server.ts:57-58 | one `category` parameter per category, in order |
| Server.PsiProxyRequest | server.ts:35-58 | the checks and the query of `/api/psi`: stated by `PsiQueryParameters` |
| Server.PsiEndpoint | server.ts:32-75 | a missing url gets 400 and a missing key gets 500, both before any outbound call; otherwise the provider's status and body are forwarded, and a failed exchange gets 500 |
| Server.PsiQueryParameters | server.ts:35-58 | 400 iff the url is missing; 500 iff there is a url but neither key; otherwise the query holds the url, the strategy or "mobile", the trimmed key, and the four categories in order |
| Server.StripDataUri | server.ts:106 | the replacement only ever removes a prefix, so the result is a suffix of the input; `StripsImageDataUri` and `StripOnlyImageDataUri` say which prefix |
| Server.CleanBase64 | server.ts:105-107 | a missing or empty screenshot gives null; any other screenshot gives a value |
| Server.StripsImageDataUri | server.ts:106 | `data:image/<word chars>;base64,` followed by a payload is reduced to the payload |
| Server.StripOnlyImageDataUri | server.ts:106 | whatever is stripped is exactly such a prefix; a string without one is unchanged |
| Server.SvgDataUriKept | server.ts:106 | an `image/svg+xml` data URI is not stripped |
| Server.GoalText | server.ts:126 | the goal as given when non-empty, otherwise "General Improvement" |
| Server.MetricLines | server.ts:135 | one line per metric, in metric order |
| Server.MetricsBlock | server.ts:135 | the joined metric lines: stated by `MetricLines` and `MetricsBlockLines` |
| Server.MetricsBlockLines | server.ts:135 | splitting the metrics block at line breaks gives back one `- title: displayValue` line per metric |
| Server.BuildParts | server.ts:109-147 | one or two parts; the prompt is last; the image part, with the stripped data and MIME type image/jpeg, is first exactly when stripped data is non-empty |
| Server.ScreenshotPartIsPayload | server.ts:105-119 | a data-URI screenshot with a non-empty payload is sent as that payload, before the prompt |
| Server.EmptyPayloadSendsNoImage | server.ts:105-119 | a data URI with nothing after the prefix sends the prompt alone |
| Server.GeminiReply | server.ts:188-204 | 200 with the parsed value, forwarded unchanged, iff the text is non-empty and parses. Otherwise 500 with one of: "No response from Gemini", "Failed to parse Gemini response", the thrown message, or the generic analysis message |
| Server.AnalyzeEndpoint | server.ts:83-147 | a missing psiData or url gets 400 and a blank key gets 500, with no request sent in either case; otherwise the parts sent are built from the screenshot and brief, and the reply is GeminiReply's |
| App.ErrorText | App.tsx:39 | the error message when non-empty, otherwise "An unexpected error occurred." |
| App.StageDetermines | types.ts:53-58 | in a state the transitions produce, the error is present iff the stage is Error; telemetry is present iff the stage is AnalyzingGemini or Complete; an analysis only in Complete |
| App.AnalysisSession.constructor | App.tsx:10-12 | the session starts Idle with no error or data |
| App.AnalysisSession.IsLoading | App.tsx:126 | loading iff the stage is FetchingPsi or AnalyzingGemini |
| App.AnalysisSession.ShowsDashboard | App.tsx:133 | the report is shown only in Complete with both telemetry and analysis present |
| App.AnalysisSession.Begin | App.tsx:15 | starting a run replaces the state by FetchingPsi with no data |
| App.AnalysisSession.TelemetryArrived | App.tsx:19-40 | success moves to AnalyzingGemini carrying exactly that telemetry and hands it to the analysis; failure moves to Error with the message and no data |
| App.AnalysisSession.AnalysisArrived | App.tsx:27-40 | success moves to Complete with the same telemetry and the result; failure moves to Error with no data |
| App.AnalysisSession.TryAgain | App.tsx:56 | Error goes back to Idle with no data |
| App.AnalysisSession.Submit | components/InputForm.tsx:13-22 | a run starts iff nothing is loading and the url is non-empty, and it uses the normalised url and the goal as typed; otherwise nothing changes |
| App.AnalysisSession.HandleAnalyze | App.tsx:14-42 | a whole run. Failed telemetry ends in Error without calling the analysis. Otherwise the analysis gets that telemetry, the goal and the url, and the run ends in Complete or Error with its outcome. Nothing is loading afterwards |
| Dashboard.SortActionItems | components/Dashboard.tsx:161-165 | the array is rearranged in place into the stable sort by descending priority weight |
| Dashboard.InsertNext | components/Dashboard.tsx:161-165 | one pass of the in-place sort: the prefix up to the new item becomes that prefix with the item inserted after every item of equal or higher priority; the rest of the array is untouched |
| Dashboard.PriorityOrder | components/Dashboard.tsx:161-165 | High before Medium before Low; same items and same count (the count shown at line 155) |
| Dashboard.PriorityTiesKeepOrder | components/Dashboard.tsx:162-164 | items of equal priority keep their relative order |
| Dashboard.ExampleMixedPriorities | components/Dashboard.tsx:161-165 | priorities Low, High, Medium come out High, Medium, Low |
| Dashboard.LinkAt | components/Dashboard.tsx:48 | a match found at a position ends after it, with the `](` after the text; `LinkAtIsLazyMatch` says it is the regex's match |
| Dashboard.LinkAtIsLazyMatch | components/Dashboard.tsx:48 | the scanner finds the lazy match (shortest text, then shortest target, on one line), and reports none iff the pattern has no match at that position |
| Dashboard.StripLinksKeepsPlain | components/Dashboard.tsx:48 | a character other than `[` starts no match and is kept as it is |
| Dashboard.StripLinksPlainPrefix | components/Dashboard.tsx:48 | text without `[` in front of a suffix is kept, and the suffix is processed as if it stood alone |
| Dashboard.StripLinks | components/Dashboard.tsx:48 | the global replacement: stated by `StripLinksKeepsPlain`, `StripLinksPlainPrefix`, `StripLinksShortens`, `StripLeadingLink` and `StripLinksOfLink` |
| Dashboard.StripLinksShortens | components/Dashboard.tsx:48 | stripping never lengthens a description, and one without `[` comes back unchanged |
| Dashboard.StripLeadingLink | components/Dashboard.tsx:48 | a description that starts with a well-formed link loses its brackets and target, keeping the link text |
| Dashboard.StripLinksOfLink | components/Dashboard.tsx:48 | `[text](target)` is replaced by `text`; the text before it is kept and the rest is processed on its own |
| Dashboard.ReasoningText | components/Dashboard.tsx:88 | the reasoning when non-empty, otherwise "No detailed reasoning available." |
| InputForm.NormalizeUrl | components/InputForm.tsx:16-20 | the result has an http(s) scheme; it is the trimmed input, with "https://" prepended exactly when that lacks the scheme (compared ignoring ASCII case) |
| InputForm.HandleSubmit | components/InputForm.tsx:13-22 | the analysis is called iff the submit button is enabled, with the normalised url and the goal untouched |
| InputForm.NormalizeIdempotent | components/InputForm.tsx:16-20 | normalising twice equals normalising once |
| InputForm.NormalizeKeepsInput | components/InputForm.tsx:16-20 | the sent address ends with the trimmed input |
| InputForm.UpperCaseSchemeKept | components/InputForm.tsx:18 | an address typed with an upper-case `HTTP://` is kept as typed |
| InputForm.BlankInputSendsBareScheme | components/InputForm.tsx:15-20 | whitespace-only input passes the guard and is sent as "https://" |
| ScoreGauge.FinalColor | components/ScoreGauge.tsx:15-21 | a non-empty colour prop wins; otherwise one of the three band colours |
| ScoreGauge.BandOf | components/ScoreGauge.tsx:18-20 | the score's band: stated by `BandBoundaries` and `BandMonotone` |
| ScoreGauge.BandBoundaries | components/ScoreGauge.tsx:18-20 | green at 90 and above, orange from 50 below 90, red below 50; without a colour prop the band decides |
| ScoreGauge.BandMonotone | components/ScoreGauge.tsx:18-20 | a higher score never gets a worse band |
| ScoreGauge.BandColorsDistinct | components/ScoreGauge.tsx:18-20 | the three bands have three different colours |

## Left out

- **Network calls:** the `fetch` calls, the PageSpeed Insights request itself, the generative model call and `JSON.parse` (services/psiService.ts:20, 30; services/geminiService.ts; server.ts:63-69, 98, 152-185). Each is a parameter giving its outcome. services/geminiService.ts is not part of this model: the app receives the analysis outcome directly.
- **Environment and plumbing:** Express bootstrap, environment validation, CORS, body limits, `app.listen` and logging. Environment variables are parameters.
- **Presentation:** JSX, modals, icons, the recharts gauge, ActionItemCard, and the number the gauge shows (which is the score as given).
- **Prompt prose:** only the interpolated values of the prompt are modelled (url, goal, four scores, metrics block). The fixed prose is not, and neither is the response schema, which is only sent to the provider.
- **IEEE-754 arithmetic:** scores are exact reals, and rounding is half up.
- **Async and aliasing:** the interleaving of `await` and React re-renders, and runs started other than through the form. Each stage completion is one atomic transition. The dashboard sort mutates the very array held in App's state; the model sorts an array on its own.
- **Malformed input:** reports and bodies of the wrong shape, such as categories that are not an object, missing `metrics`, non-string query values, or priorities outside the three values. The datatypes exclude them. Where the source would throw a TypeError on them, the model has no corresponding path.
- **PsiService.MissingAuditMessage:** the message of the TypeError thrown on a missing audit is V8's wording. The code runs in the browser, and other engines word it differently; the model fixes the V8 text.
- **App.AnalysisSession.Begin:** requires that no run is loading. The only caller, the form's submit handler, guarantees it, so overlapping runs are not modelled.
- **App.AnalysisSession.TryAgain:** requires the Error stage, the only stage in which the button is rendered.
