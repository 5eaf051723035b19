/** The data model shared by the client, the services and the proxy server:
    the records of types.ts, plus the raw Lighthouse report that psiService
    reads (typed `any` in the source). */
module Types {

  datatype Option<+T> = None | Some(value: T)

  /** A string-valued JavaScript property that may be absent, as `||` tests
      it: truthy when present and non-empty. */
  predicate Truthy(v: Option<string>)
  {
    v.Some? && v.value != ""
  }

  /** What a call into code outside the model produced: a value, or a thrown
      Error carrying its `message` (possibly empty). */
  datatype Outcome<+T> = Ok(value: T) | Fail(message: string)

  /** A JavaScript property that should hold a number: a number, `null`, or
      `undefined` (the property or its owner is absent). */
  datatype Score = Num(v: real) | Null | Undefined

  // ---------------------------------------------------------------------
  // Analysis result (the generative step's answer)
  // ---------------------------------------------------------------------

  datatype Category = Performance | Effectiveness | Design

  datatype Priority = High | Medium | Low

  datatype ActionItem = ActionItem(
    title: string,
    description: string,
    category: Category,
    priority: Priority,
    impact: string)

  datatype AnalysisResult = AnalysisResult(
    effectivenessScore: real,
    effectivenessReasoning: string,
    designScore: real,
    designReasoning: string,
    summary: string,
    actionItems: seq<ActionItem>)

  // ---------------------------------------------------------------------
  // Raw Lighthouse report, as the telemetry provider returns it
  // ---------------------------------------------------------------------

  /** `details` of an audit; only `data` (the screenshot's data URI) is read. */
  datatype AuditDetails = AuditDetails(data: Option<string>)

  datatype Audit = Audit(
    title: string,
    description: string,
    score: Score,
    displayValue: Option<string>,
    details: Option<AuditDetails>)

  datatype AuditRef = AuditRef(id: string, weight: real)

  /** A category; `score` is None when the report has `null`. */
  datatype LighthouseCategory = LighthouseCategory(score: Option<real>, auditRefs: seq<AuditRef>)

  datatype LighthouseResult = LighthouseResult(
    audits: map<string, Audit>,
    categories: map<string, LighthouseCategory>)

  // ---------------------------------------------------------------------
  // Normalised telemetry
  // ---------------------------------------------------------------------

  datatype PSIMetric = PSIMetric(id: string, title: string, score: Score, displayValue: Option<string>)

  datatype AuditDetail = AuditDetail(
    id: string,
    title: string,
    description: string,
    score: Score,
    displayValue: Option<string>)

  datatype PSIData = PSIData(
    performanceScore: int,
    accessibilityScore: int,
    bestPracticesScore: int,
    seoScore: int,
    screenshotBase64: Option<string>,
    metrics: seq<PSIMetric>,
    rawAudits: map<string, Audit>,
    seoIssues: seq<AuditDetail>,
    performanceIssues: seq<AuditDetail>)

  // ---------------------------------------------------------------------
  // Client state
  // ---------------------------------------------------------------------

  datatype AnalysisStage = Idle | FetchingPsi | AnalyzingGemini | Complete | Error

  /** The flat state record: nothing in the type ties the optional parts to
      the stage; only the transitions of App do. `geminiResult` is None in
      Complete when the provider's JSON parsed to a falsy value (such as
      `null`), which the source forwards without checking. */
  datatype AnalysisState = AnalysisState(
    stage: AnalysisStage,
    error: Option<string>,
    psiData: Option<PSIData>,
    geminiResult: Option<AnalysisResult>)

  /** The arguments of `onAnalyze` / `handleAnalyze`. */
  datatype AnalyzeArgs = AnalyzeArgs(url: string, goal: string)
}
