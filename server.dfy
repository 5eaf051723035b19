/** server.ts: the two proxy endpoints. `/api/psi` checks its query and
    builds the PageSpeed Insights request; `/api/analyze` checks its body,
    assembles the multimodal request for the generative model and turns the
    model's answer into a response. The outbound calls are parameters. */
module Server {
  import opened Types
  import opened Text

  /** A JSON response: a body forwarded with a status, or the
      `{ error: { message } }` shape the server writes itself. */
  datatype Reply<J> = Respond(status: int, body: J) | ErrorReply(status: int, message: string)

  // ---------------------------------------------------------------------
  // GET /api/psi
  // ---------------------------------------------------------------------

  const UrlRequiredMessage := "URL parameter is required"
  const PsiKeyMissingMessage := "Server configuration error: API Key missing"
  const PsiContactMessage := "Internal Server Error while contacting Google PSI"
  const DefaultStrategy := "mobile"
  const PsiCategories := ["PERFORMANCE", "ACCESSIBILITY", "BEST_PRACTICES", "SEO"]

  /** What the handler does before any outbound call: reject, or call the
      provider with these query parameters (in order). */
  datatype ProxyDecision = Reject(status: int, message: string) | Call(query: seq<(string, string)>)

  /** `searchParams.getAll(name)`: the values of `name`, in order. */
  function GetAll(query: seq<(string, string)>, name: string): seq<string>
  {
    if query == [] then []
    else (if query[0].0 == name then [query[0].1] else []) + GetAll(query[1..], name)
  }

  function CategoryParams(categories: seq<string>): (r: seq<(string, string)>)
    ensures |r| == |categories|
    ensures forall i :: 0 <= i < |r| ==> r[i] == ("category", categories[i])
  {
    if categories == [] then [] else [("category", categories[0])] + CategoryParams(categories[1..])
  }

  /** The checks and query construction of `/api/psi`. The key is
      `PSI_API_KEY || API_KEY`, sent trimmed. */
  function PsiProxyRequest(url: Option<string>, strategy: Option<string>,
                           psiApiKey: Option<string>, apiKey: Option<string>): ProxyDecision
  {
    if !Truthy(url) then Reject(400, UrlRequiredMessage)
    else
      var key := if Truthy(psiApiKey) then psiApiKey else apiKey;
      if !Truthy(key) then Reject(500, PsiKeyMissingMessage)
      else
        Call([("url", url.value),
              ("strategy", if Truthy(strategy) then strategy.value else DefaultStrategy),
              ("key", Trim(key.value))]
             + CategoryParams(PsiCategories))
  }

  /** The whole handler, given what the provider exchange produced: its
      status and JSON body are forwarded, a failure becomes a 500. */
  function PsiEndpoint<J>(url: Option<string>, strategy: Option<string>,
                          psiApiKey: Option<string>, apiKey: Option<string>,
                          google: Outcome<(int, J)>): (r: Reply<J>)
    ensures !Truthy(url) ==> r == ErrorReply(400, UrlRequiredMessage)
    ensures Truthy(url) && !Truthy(psiApiKey) && !Truthy(apiKey) ==> r == ErrorReply(500, PsiKeyMissingMessage)
    ensures r.Respond? <==> PsiProxyRequest(url, strategy, psiApiKey, apiKey).Call? && google.Ok?
    ensures r.Respond? ==> google == Ok((r.status, r.body))
    ensures PsiProxyRequest(url, strategy, psiApiKey, apiKey).Call? && google.Fail? ==>
              r == ErrorReply(500, PsiContactMessage)
  {
    match PsiProxyRequest(url, strategy, psiApiKey, apiKey)
    case Reject(status, message) => ErrorReply(status, message)
    case Call(_) =>
      match google
      case Ok((status, data)) => Respond(status, data)
      case Fail(_) => ErrorReply(500, PsiContactMessage)
  }

  lemma {:induction false} GetAllAppend(a: seq<(string, string)>, b: seq<(string, string)>, name: string)
    ensures GetAll(a + b, name) == GetAll(a, name) + GetAll(b, name)
    decreases |a|
  {
    if a == [] {
      assert a + b == b;
    } else {
      var head := if a[0].0 == name then [a[0].1] else [];
      assert (a + b)[0] == a[0] && (a + b)[1..] == a[1..] + b;
      assert GetAll(a + b, name) == head + GetAll(a[1..] + b, name);
      GetAllAppend(a[1..], b, name);
      assert GetAll(a, name) == head + GetAll(a[1..], name);
    }
  }

  lemma {:induction false} GetAllCategories(categories: seq<string>, name: string)
    ensures GetAll(CategoryParams(categories), name) == if name == "category" then categories else []
    decreases |categories|
  {
    if categories != [] {
      var r := CategoryParams(categories);
      assert r[1..] == CategoryParams(categories[1..]);
      GetAllCategories(categories[1..], name);
      assert categories == [categories[0]] + categories[1..];
    }
  }

  lemma GetAllOfQuery(a: (string, string), b: (string, string), c: (string, string),
                       rest: seq<(string, string)>, name: string)
    ensures GetAll([a, b, c] + rest, name)
         == (if a.0 == name then [a.1] else []) + (if b.0 == name then [b.1] else [])
            + (if c.0 == name then [c.1] else []) + GetAll(rest, name)
  {
    var q := [a, b, c] + rest;
    var q1, q2 := [b, c] + rest, [c] + rest;
    assert q[0] == a && q[1..] == q1;
    assert q1[0] == b && q1[1..] == q2;
    assert q2[0] == c && q2[1..] == rest;
    assert GetAll(q2, name) == (if c.0 == name then [c.1] else []) + GetAll(rest, name);
    assert GetAll(q1, name) == (if b.0 == name then [b.1] else []) + GetAll(q2, name);
  }

  /** Each name of the query occurs in its own place, the category once per
      category. */
  lemma QueryValues(u: string, st: string, k: string)
    ensures var q := [("url", u), ("strategy", st), ("key", k)] + CategoryParams(PsiCategories);
            && GetAll(q, "url") == [u] && GetAll(q, "strategy") == [st]
            && GetAll(q, "key") == [k] && GetAll(q, "category") == PsiCategories
  {
    var a, b, c := ("url", u), ("strategy", st), ("key", k);
    var rest := CategoryParams(PsiCategories);
    assert [("url", u), ("strategy", st), ("key", k)] + rest == [a, b, c] + rest;
    assert "url" != "strategy" && "url" != "key" && "url" != "category";
    assert "strategy" != "key" && "strategy" != "category" && "key" != "category";
    GetAllOfQuery(a, b, c, rest, "url");
    GetAllOfQuery(a, b, c, rest, "strategy");
    GetAllOfQuery(a, b, c, rest, "key");
    GetAllOfQuery(a, b, c, rest, "category");
    GetAllCategories(PsiCategories, "url");
    GetAllCategories(PsiCategories, "strategy");
    GetAllCategories(PsiCategories, "key");
    GetAllCategories(PsiCategories, "category");
  }

  /** The query handed to the provider: the url as given, the strategy or
      "mobile" when it is absent or empty, the trimmed key, and the four
      categories in order; without a url the request is refused with 400
      before the key is even looked at. */
  lemma PsiQueryParameters(url: Option<string>, strategy: Option<string>,
                           psiApiKey: Option<string>, apiKey: Option<string>)
    ensures var d := PsiProxyRequest(url, strategy, psiApiKey, apiKey);
            && (!Truthy(url) <==> d == Reject(400, UrlRequiredMessage))
            && (Truthy(url) && !Truthy(psiApiKey) && !Truthy(apiKey) <==> d == Reject(500, PsiKeyMissingMessage))
            && (d.Call? ==>
                 && GetAll(d.query, "url") == [url.value]
                 && GetAll(d.query, "strategy") == [if Truthy(strategy) then strategy.value else DefaultStrategy]
                 && GetAll(d.query, "key") == [Trim(if Truthy(psiApiKey) then psiApiKey.value else apiKey.value)]
                 && GetAll(d.query, "category") == PsiCategories)
  {
    var d := PsiProxyRequest(url, strategy, psiApiKey, apiKey);
    if d.Call? {
      QueryValues(url.value, if Truthy(strategy) then strategy.value else DefaultStrategy,
                  Trim(if Truthy(psiApiKey) then psiApiKey.value else apiKey.value));
    }
  }

  // ---------------------------------------------------------------------
  // POST /api/analyze: the screenshot
  // ---------------------------------------------------------------------

  /** `\w`: ASCII letters, digits and underscore. */
  predicate IsWordChar(c: char)
  {
    ('a' <= c <= 'z') || ('A' <= c <= 'Z') || ('0' <= c <= '9') || c == '_'
  }

  predicate IsWordRun(w: string)
  {
    w != [] && forall i :: 0 <= i < |w| ==> IsWordChar(w[i])
  }

  const DataImagePrefix := "data:image/"
  const Base64Marker := ";base64,"

  /** The end of the run of word characters starting at `i`. */
  function WordRunEnd(s: string, i: nat): (r: nat)
    requires i <= |s|
    ensures i <= r <= |s|
    ensures forall j :: i <= j < r ==> IsWordChar(s[j])
    ensures r == |s| || !IsWordChar(s[r])
    decreases |s| - i
  {
    if i < |s| && IsWordChar(s[i]) then WordRunEnd(s, i + 1) else i
  }

  /** The length of the text `/^data:image\/\w+;base64,/` matches, if it
      matches. `\w+` cannot stop short of the whole run, since ';' is not a
      word character, so the match is unique. */
  function DataUriPrefixLength(s: string): (r: Option<nat>)
    ensures r.Some? ==> |DataImagePrefix| + 1 + |Base64Marker| <= r.value <= |s|
  {
    var start := |DataImagePrefix|;
    if |s| < start || s[..start] != DataImagePrefix then None
    else
      var j := WordRunEnd(s, start);
      if j == start || |s| < j + |Base64Marker| || s[j..j + |Base64Marker|] != Base64Marker then None
      else Some(j + |Base64Marker|)
  }

  /** `s.replace(/^data:image\/\w+;base64,/, "")`. */
  function StripDataUri(s: string): (r: string)
    ensures |r| <= |s| && r == s[|s| - |r|..]
  {
    match DataUriPrefixLength(s)
    case Some(n) => s[n..]
    case None => s
  }

  /** `cleanBase64`: a missing or empty screenshot gives null. */
  function CleanBase64(screenshot: Option<string>): (r: Option<string>)
    ensures r.None? <==> !Truthy(screenshot)
  {
    if Truthy(screenshot) then Some(StripDataUri(screenshot.value)) else None
  }

  /** A data URI of an image whose subtype is a run of word characters loses
      exactly its prefix. */
  lemma StripsImageDataUri(w: string, payload: string)
    requires IsWordRun(w)
    ensures StripDataUri(DataImagePrefix + w + Base64Marker + payload) == payload
  {
    var s := DataImagePrefix + w + Base64Marker + payload;
    var start := |DataImagePrefix|;
    var j := start + |w|;
    assert s[..start] == DataImagePrefix;
    assert s[start..j] == w;
    assert s[j..j + |Base64Marker|] == Base64Marker;
    WordRunEndOf(s, start, j);
    assert s[j + |Base64Marker|..] == payload;
  }

  lemma {:induction false} WordRunEndOf(s: string, i: nat, j: nat)
    requires i <= j < |s|
    requires forall k :: i <= k < j ==> IsWordChar(s[k])
    requires !IsWordChar(s[j])
    ensures WordRunEnd(s, i) == j
    decreases j - i
  {
    if i < j {
      WordRunEndOf(s, i + 1, j);
    }
  }

  /** Whatever is stripped is such a prefix, and nothing else is changed. */
  lemma StripOnlyImageDataUri(s: string)
    ensures DataUriPrefixLength(s).Some? ==>
              var n := DataUriPrefixLength(s).value;
              var w := s[|DataImagePrefix|..n - |Base64Marker|];
              IsWordRun(w) && s == DataImagePrefix + w + Base64Marker + s[n..] && StripDataUri(s) == s[n..]
    ensures DataUriPrefixLength(s).None? ==> StripDataUri(s) == s
  {
    if DataUriPrefixLength(s).Some? {
      var n := DataUriPrefixLength(s).value;
      var start := |DataImagePrefix|;
      var j := n - |Base64Marker|;
      var w := s[start..j];
      assert forall k :: 0 <= k < |w| ==> w[k] == s[start + k];
      assert s == s[..start] + s[start..j] + s[j..n] + s[n..];
    }
  }

  /** An SVG data URI is left whole: `+` is not a word character. */
  lemma SvgDataUriKept(payload: string)
    ensures StripDataUri("data:image/svg+xml;base64," + payload) == "data:image/svg+xml;base64," + payload
  {
    var s := "data:image/svg+xml;base64," + payload;
    assert s[..|DataImagePrefix|] == DataImagePrefix;
    assert s[14] == '+';
    WordRunEndOf(s, |DataImagePrefix|, 14);
    assert s[14..14 + |Base64Marker|] != Base64Marker;
  }

  // ---------------------------------------------------------------------
  // POST /api/analyze: the prompt and the parts
  // ---------------------------------------------------------------------

  const DefaultGoal := "General Improvement"
  const ImageMimeType := "image/jpeg"

  /** `userGoal || 'General Improvement'`. */
  function GoalText(userGoal: Option<string>): (r: string)
    ensures r != ""
    ensures Truthy(userGoal) ==> r == userGoal.value
    ensures !Truthy(userGoal) ==> r == DefaultGoal
  {
    if Truthy(userGoal) then userGoal.value else DefaultGoal
  }

  /** A template literal renders a missing value as "undefined". */
  function Rendered(v: Option<string>): string
  {
    if v.Some? then v.value else "undefined"
  }

  /** `- ${m.title}: ${m.displayValue}`. */
  function MetricLine(m: PSIMetric): string
  {
    "- " + m.title + ": " + Rendered(m.displayValue)
  }

  function MetricLines(metrics: seq<PSIMetric>): (r: seq<string>)
    ensures |r| == |metrics|
    ensures forall i :: 0 <= i < |r| ==> r[i] == MetricLine(metrics[i])
  {
    seq(|metrics|, i requires 0 <= i < |metrics| => MetricLine(metrics[i]))
  }

  /** The metrics block of the prompt: one line per metric joined by "\n". */
  function MetricsBlock(metrics: seq<PSIMetric>): string
  {
    JoinLines(MetricLines(metrics))
  }

  /** The values the prompt interpolates; its fixed prose is left out. */
  datatype Brief = Brief(
    url: string,
    goal: string,
    performanceScore: int,
    accessibilityScore: int,
    bestPracticesScore: int,
    seoScore: int,
    metricsBlock: string)

  function BriefOf(psiData: PSIData, userGoal: Option<string>, url: string): Brief
  {
    Brief(url, GoalText(userGoal), psiData.performanceScore, psiData.accessibilityScore,
          psiData.bestPracticesScore, psiData.seoScore, MetricsBlock(psiData.metrics))
  }

  datatype Part = InlineImage(mimeType: string, data: string) | TextPart(brief: Brief)

  /** The content of the request: the cleaned screenshot first when any data
      is left, then the prompt. */
  ghost predicate PartsFor(parts: seq<Part>, screenshot: Option<string>, brief: Brief)
  {
    var clean := CleanBase64(screenshot);
    && 1 <= |parts| <= 2
    && parts[|parts| - 1] == TextPart(brief)
    && (|parts| == 2 <==> Truthy(clean))
    && (|parts| == 2 ==> parts[0] == InlineImage(ImageMimeType, clean.value))
  }

  /** The `parts` array, grown by push. */
  method BuildParts(screenshot: Option<string>, brief: Brief) returns (parts: seq<Part>)
    ensures PartsFor(parts, screenshot, brief)
  {
    var clean := CleanBase64(screenshot);
    parts := [];
    if Truthy(clean) {
      parts := parts + [InlineImage(ImageMimeType, clean.value)];
    }
    parts := parts + [TextPart(brief)];
  }

  /** Each metric gets its own line of the block, in order, when no title
      or display value holds a line break. */
  lemma MetricsBlockLines(metrics: seq<PSIMetric>)
    requires |metrics| >= 1
    requires forall i :: 0 <= i < |metrics| ==>
               '\n' !in metrics[i].title && '\n' !in Rendered(metrics[i].displayValue)
    ensures SplitLines(MetricsBlock(metrics)) == MetricLines(metrics)
  {
    var lines := MetricLines(metrics);
    forall i | 0 <= i < |lines| ensures '\n' !in lines[i] {
      var m := metrics[i];
      assert lines[i] == "- " + m.title + ": " + Rendered(m.displayValue);
    }
    SplitJoinLines(lines);
  }

  /** A screenshot that is a base64 image data URI, of any `\w+` subtype,
      is sent without its prefix, before the prompt, labelled image/jpeg
      whatever the subtype was. */
  lemma ScreenshotPartIsPayload(w: string, payload: string, brief: Brief, parts: seq<Part>)
    requires IsWordRun(w) && payload != ""
    requires PartsFor(parts, Some(DataImagePrefix + w + Base64Marker + payload), brief)
    ensures parts == [InlineImage(ImageMimeType, payload), TextPart(brief)]
  {
    StripsImageDataUri(w, payload);
  }

  /** A data URI with nothing after the prefix yields no image part. */
  lemma EmptyPayloadSendsNoImage(w: string, brief: Brief, parts: seq<Part>)
    requires IsWordRun(w)
    requires PartsFor(parts, Some(DataImagePrefix + w + Base64Marker), brief)
    ensures parts == [TextPart(brief)]
  {
    StripsImageDataUri(w, "");
    assert DataImagePrefix + w + Base64Marker + "" == DataImagePrefix + w + Base64Marker;
  }

  // ---------------------------------------------------------------------
  // POST /api/analyze: the answer
  // ---------------------------------------------------------------------

  const AnalyzeInputMessage := "psiData and url are required"
  const GeminiKeyMissingMessage := "Server configuration error: Gemini API Key missing"
  const NoResponseMessage := "No response from Gemini"
  const ParseFailedMessage := "Failed to parse Gemini response"
  const AnalysisFailedMessage := "Internal Server Error during Gemini analysis"

  /** What the generative call produced: it threw an Error with this
      message, or it answered with this `text` (possibly undefined). */
  datatype ProviderOutcome = Threw(message: string) | Answered(text: Option<string>)

  /** The response written once the model has been called; `parse` stands
      for `JSON.parse` (None: it throws). */
  function GeminiReply<J>(answer: ProviderOutcome, parse: string -> Option<J>): (r: Reply<J>)
    ensures r.Respond? <==> answer.Answered? && Truthy(answer.text) && parse(answer.text.value).Some?
    ensures r.Respond? ==> r.status == 200 && r.body == parse(answer.text.value).value
    ensures r.ErrorReply? ==> r.status == 500 && r.message != ""
    ensures answer.Answered? && !Truthy(answer.text) ==> r == ErrorReply(500, NoResponseMessage)
    ensures answer.Answered? && Truthy(answer.text) && parse(answer.text.value).None? ==>
              r == ErrorReply(500, ParseFailedMessage)
    ensures answer.Threw? && answer.message != "" ==> r == ErrorReply(500, answer.message)
    ensures answer.Threw? && answer.message == "" ==> r == ErrorReply(500, AnalysisFailedMessage)
  {
    match answer
    case Threw(m) => ErrorReply(500, if m != "" then m else AnalysisFailedMessage)
    case Answered(text) =>
      if !Truthy(text) then ErrorReply(500, NoResponseMessage)
      else
        match parse(text.value)
        case None => ErrorReply(500, ParseFailedMessage)
        case Some(j) => Respond(200, j)
  }

  /** `/api/analyze`. `psiData` is None when the body lacks it; `envApiKey`
      is the `API_KEY` environment variable; `answer` is what the model
      call yields for the request sent. Returns the reply and the request
      sent to the model, None when the handler stops before calling it. */
  method AnalyzeEndpoint<J>(psiData: Option<PSIData>, userGoal: Option<string>, url: Option<string>,
                            envApiKey: Option<string>, answer: ProviderOutcome,
                            parse: string -> Option<J>)
    returns (reply: Reply<J>, request: Option<seq<Part>>)
    ensures psiData.None? || !Truthy(url) ==> reply == ErrorReply(400, AnalyzeInputMessage) && request.None?
    ensures psiData.Some? && Truthy(url) && (envApiKey.None? || Trim(envApiKey.value) == "") ==>
              reply == ErrorReply(500, GeminiKeyMissingMessage) && request.None?
    ensures request.Some? <==> psiData.Some? && Truthy(url) && envApiKey.Some? && Trim(envApiKey.value) != ""
    ensures request.Some? ==>
              && PartsFor(request.value, psiData.value.screenshotBase64, BriefOf(psiData.value, userGoal, url.value))
              && reply == GeminiReply(answer, parse)
  {
    if psiData.None? || !Truthy(url) {
      return ErrorReply(400, AnalyzeInputMessage), None;
    }
    var apiKey := if envApiKey.Some? then Trim(envApiKey.value) else "";
    if apiKey == "" {
      return ErrorReply(500, GeminiKeyMissingMessage), None;
    }
    var parts := BuildParts(psiData.value.screenshotBase64, BriefOf(psiData.value, userGoal, url.value));
    request := Some(parts);
    reply := GeminiReply(answer, parse);
  }
}
