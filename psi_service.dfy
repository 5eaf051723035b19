/** services/psiService.ts: turning a PageSpeed Insights reply into the
    fixed-shape PSIData. Everything here is pure; the HTTP exchange itself is
    an input (PsiResponse). */
module PsiService {
  import opened Types
  import opened StableSort

  const NoLighthouseMessage := "Invalid response from PageSpeed Insights (No Lighthouse data received)."

  /** The message of the TypeError thrown when `audit.score` is read from an
      audit that the report does not contain (V8's wording). */
  const MissingAuditMessage := "Cannot read properties of undefined (reading 'score')"

  const ScreenshotAuditId := "final-screenshot"

  /** The most issues kept per category. */
  const MaxIssues := 5

  /** An audit counts as an issue only below this score. */
  const IssueThreshold := 0.9

  /** What the HTTP exchange with the proxy gave: `ok`, the status text, the
      `error.message` of an error body (if any) and the body's
      `lighthouseResult` (None when missing or falsy). */
  datatype PsiResponse = PsiResponse(
    ok: bool,
    statusText: string,
    errorMessage: Option<string>,
    lighthouseResult: Option<LighthouseResult>)

  // ---------------------------------------------------------------------
  // Category scores
  // ---------------------------------------------------------------------

  /** `Math.round`: the nearest integer, halves rounded up. */
  function MathRound(x: real): (r: int)
    ensures r as real - 1.0 / 2.0 <= x < r as real + 1.0 / 2.0
  {
    (x + 1.0 / 2.0).Floor
  }

  /** `getScore(cat)`: the category score in percent, rounded. */
  function CategoryScore(lh: LighthouseResult, cat: string): (r: int)
    ensures cat !in lh.categories || lh.categories[cat].score.None? ==> r == 0
    ensures cat in lh.categories && lh.categories[cat].score.Some? ==>
              var s := lh.categories[cat].score.value;
              r as real - 1.0 / 2.0 <= s * 100.0 < r as real + 1.0 / 2.0
    ensures (cat in lh.categories && lh.categories[cat].score.Some? &&
             0.0 <= lh.categories[cat].score.value <= 1.0) ==> 0 <= r <= 100
  {
    var raw := if cat in lh.categories && lh.categories[cat].score.Some?
               then lh.categories[cat].score.value else 0.0;
    MathRound(raw * 100.0)
  }

  // ---------------------------------------------------------------------
  // Screenshot and key metrics
  // ---------------------------------------------------------------------

  /** `audits['final-screenshot']?.details?.data || null`. */
  function Screenshot(audits: map<string, Audit>): (r: Option<string>)
    ensures r != Some("")
    ensures r.Some? <==>
              ScreenshotAuditId in audits && audits[ScreenshotAuditId].details.Some? &&
              audits[ScreenshotAuditId].details.value.data.Some? &&
              audits[ScreenshotAuditId].details.value.data.value != ""
    ensures r.Some? ==> r.value == audits[ScreenshotAuditId].details.value.data.value
  {
    if ScreenshotAuditId in audits then
      match audits[ScreenshotAuditId].details
      case Some(AuditDetails(data)) => if Truthy(data) then data else None
      case None => None
    else None
  }

  /** The three key metrics: (audit id, metric id, title). */
  const KeyMetrics: seq<(string, string, string)> := [
    ("largest-contentful-paint", "lcp", "Largest Contentful Paint"),
    ("cumulative-layout-shift", "cls", "Cumulative Layout Shift"),
    ("interaction-to-next-paint", "inp", "Interaction to Next Paint")
  ]

  /** One metric: score and display value of its audit, both undefined when
      the audit is absent. */
  function Metric(audits: map<string, Audit>, m: (string, string, string)): PSIMetric
  {
    if m.0 in audits then PSIMetric(m.1, m.2, audits[m.0].score, audits[m.0].displayValue)
    else PSIMetric(m.1, m.2, Undefined, None)
  }

  function Metrics(audits: map<string, Audit>): (r: seq<PSIMetric>)
    ensures |r| == 3
    ensures r[0].id == "lcp" && r[1].id == "cls" && r[2].id == "inp"
    ensures forall i :: 0 <= i < |r| ==>
              r[i].title == KeyMetrics[i].2 &&
              (KeyMetrics[i].0 in audits ==>
                 r[i].score == audits[KeyMetrics[i].0].score &&
                 r[i].displayValue == audits[KeyMetrics[i].0].displayValue) &&
              (KeyMetrics[i].0 !in audits ==> r[i].score == Undefined && r[i].displayValue == None)
  {
    seq(|KeyMetrics|, i requires 0 <= i < |KeyMetrics| => Metric(audits, KeyMetrics[i]))
  }

  // ---------------------------------------------------------------------
  // Category issues: filter, map, stable sort, slice
  // ---------------------------------------------------------------------

  /** The filter callback throws: the ref matters but `audits[ref.id]` is
      `undefined`, because the report holds no such audit and no inherited
      member has that name. */
  predicate Throws(ref: AuditRef, audits: map<string, Audit>)
  {
    ref.weight > 0.0 && ref.id !in audits && !IsInheritedMember(ref.id)
  }

  /** The members every object inherits from `Object.prototype`. A report
      parsed from JSON lacks them as own keys, yet `audits[id]` finds them:
      the lookup yields a function or an object, never `undefined`, and it
      has no `score`. (A `__proto__` key in the JSON is an own key.) */
  predicate IsInheritedMember(id: string)
  {
    || id == "constructor" || id == "hasOwnProperty" || id == "isPrototypeOf"
    || id == "propertyIsEnumerable" || id == "toLocaleString" || id == "toString"
    || id == "valueOf" || id == "__proto__" || id == "__defineGetter__"
    || id == "__defineSetter__" || id == "__lookupGetter__" || id == "__lookupSetter__"
  }

  /** The filter callback returns true: `ref.weight > 0 && audit.score !== null
      && audit.score < 0.9` (an undefined score fails the comparison, so an
      inherited member is never eligible). */
  predicate IsEligible(ref: AuditRef, audits: map<string, Audit>)
  {
    && ref.weight > 0.0
    && ref.id in audits
    && audits[ref.id].score.Num?
    && audits[ref.id].score.v < IssueThreshold
  }

  function EligibleRefs(refs: seq<AuditRef>, audits: map<string, Audit>): (r: seq<AuditRef>)
    ensures |r| <= |refs|
    ensures forall x :: x in r <==> x in refs && IsEligible(x, audits)
  {
    if refs == [] then []
    else (if IsEligible(refs[0], audits) then [refs[0]] else []) + EligibleRefs(refs[1..], audits)
  }

  /** The map callback: the issue named after the ref, with its audit's fields. */
  function ToDetail(ref: AuditRef, audit: Audit): AuditDetail
  {
    AuditDetail(ref.id, audit.title, audit.description, audit.score, audit.displayValue)
  }

  /** The eligible refs of a category as issues, in `auditRefs` order. */
  function EligibleDetails(refs: seq<AuditRef>, audits: map<string, Audit>): (r: seq<AuditDetail>)
    ensures |r| == |EligibleRefs(refs, audits)|
  {
    var e := EligibleRefs(refs, audits);
    seq(|e|, i requires 0 <= i < |e| => assert e[i] in e; ToDetail(e[i], audits[e[i].id]))
  }

  /** The comparator's key, `a.score || 0`. */
  function IssueKey(d: AuditDetail): real
  {
    if d.score.Num? then d.score.v else 0.0
  }

  /** `.sort(...).slice(0, 5)`. */
  function TopIssues(details: seq<AuditDetail>): seq<AuditDetail>
  {
    var sorted := SortBy(details, IssueKey);
    if |sorted| <= MaxIssues then sorted else sorted[..MaxIssues]
  }

  /** `getCategoryIssues(categoryId)`: Fail when the filter throws. */
  function CategoryIssues(lh: LighthouseResult, categoryId: string): Outcome<seq<AuditDetail>>
  {
    if categoryId !in lh.categories then Ok([])
    else
      var refs := lh.categories[categoryId].auditRefs;
      if exists i :: 0 <= i < |refs| && Throws(refs[i], lh.audits) then Fail(MissingAuditMessage)
      else Ok(TopIssues(EligibleDetails(refs, lh.audits)))
  }

  /** The issues of a present category whose refs all resolve. */
  function IssuesOf(lh: LighthouseResult, categoryId: string): seq<AuditDetail>
    requires categoryId in lh.categories
  {
    EligibleDetails(lh.categories[categoryId].auditRefs, lh.audits)
  }

  // ---------------------------------------------------------------------
  // The whole normalisation
  // ---------------------------------------------------------------------

  /** The body of `fetchPageSpeedData` after the reply has been parsed. */
  function NormalizeReport(lighthouse: Option<LighthouseResult>): Outcome<PSIData>
  {
    match lighthouse
    case None => Fail(NoLighthouseMessage)
    case Some(lh) =>
      match (CategoryIssues(lh, "performance"), CategoryIssues(lh, "seo"))
      case (Fail(m), _) => Fail(m)
      case (_, Fail(m)) => Fail(m)
      case (Ok(performanceIssues), Ok(seoIssues)) =>
        Ok(PSIData(
          CategoryScore(lh, "performance"),
          CategoryScore(lh, "accessibility"),
          CategoryScore(lh, "best-practices"),
          CategoryScore(lh, "seo"),
          Screenshot(lh.audits),
          Metrics(lh.audits),
          lh.audits,
          seoIssues,
          performanceIssues))
  }

  /** `errorData.error?.message || response.statusText`. */
  function HttpErrorMessage(errorMessage: Option<string>, statusText: string): (m: string)
    ensures Truthy(errorMessage) ==> m == errorMessage.value
    ensures !Truthy(errorMessage) ==> m == statusText
  {
    if Truthy(errorMessage) then errorMessage.value else statusText
  }

  /** `fetchPageSpeedData`, given what the HTTP exchange produced (a rejected
      `fetch` or an unreadable body is a Fail of the exchange itself). */
  function FetchPageSpeedData(exchange: Outcome<PsiResponse>): Outcome<PSIData>
  {
    match exchange
    case Fail(m) => Fail(m)
    case Ok(response) =>
      if !response.ok then Fail(HttpErrorMessage(response.errorMessage, response.statusText))
      else NormalizeReport(response.lighthouseResult)
  }

  // ---------------------------------------------------------------------
  // Properties
  // ---------------------------------------------------------------------

  /** An absent category has no issues. */
  lemma AbsentCategoryHasNoIssues(lh: LighthouseResult, categoryId: string)
    requires categoryId !in lh.categories
    ensures CategoryIssues(lh, categoryId) == Ok([])
  {
  }

  /** Collecting issues fails exactly when a ref with positive weight names an
      audit the report does not hold and that is not an inherited member. */
  lemma IssuesFailIff(lh: LighthouseResult, categoryId: string)
    ensures CategoryIssues(lh, categoryId).Fail? <==>
              categoryId in lh.categories &&
              exists ref :: ref in lh.categories[categoryId].auditRefs && ref.weight > 0.0 && ref.id !in lh.audits
                            && !IsInheritedMember(ref.id)
    ensures CategoryIssues(lh, categoryId).Fail? ==>
              CategoryIssues(lh, categoryId).message == MissingAuditMessage
  {
    if categoryId in lh.categories {
      var refs := lh.categories[categoryId].auditRefs;
      if exists ref :: ref in refs && ref.weight > 0.0 && ref.id !in lh.audits && !IsInheritedMember(ref.id) {
        var ref :| ref in refs && ref.weight > 0.0 && ref.id !in lh.audits && !IsInheritedMember(ref.id);
        var i :| 0 <= i < |refs| && refs[i] == ref;
        assert Throws(refs[i], lh.audits);
      }
    }
  }

  lemma EligibleDetailsAreEligible(refs: seq<AuditRef>, audits: map<string, Audit>)
    ensures forall d :: d in EligibleDetails(refs, audits) ==>
              exists ref :: ref in refs && IsEligible(ref, audits) && d == ToDetail(ref, audits[ref.id])
  {
    var e := EligibleRefs(refs, audits);
    forall d | d in EligibleDetails(refs, audits)
      ensures exists ref :: ref in refs && IsEligible(ref, audits) && d == ToDetail(ref, audits[ref.id])
    {
      var i :| 0 <= i < |e| && EligibleDetails(refs, audits)[i] == d;
      assert e[i] in e;
    }
  }

  lemma TopIssuesProperties(details: seq<AuditDetail>)
    ensures var top := TopIssues(details);
            && top == SortBy(details, IssueKey)[..|top|]
            && |top| == (if |details| <= MaxIssues then |details| else MaxIssues)
            && multiset(top) <= multiset(details)
            && SortedBy(top, IssueKey)
  {
    var sorted := SortBy(details, IssueKey);
    SortByCorrect(details, IssueKey);
    var top := TopIssues(details);
    assert sorted == top + sorted[|top|..];
    assert multiset(sorted) == multiset(top) + multiset(sorted[|top|..]);
  }

  /** Every issue comes from a ref of the category with positive weight whose
      audit has a numeric score below 0.9; the issue carries the ref's id and
      the audit's title, description, score and display value. */
  lemma IssuesAreEligible(lh: LighthouseResult, categoryId: string)
    requires CategoryIssues(lh, categoryId).Ok? && categoryId in lh.categories
    ensures forall d :: d in CategoryIssues(lh, categoryId).value ==>
              && d.score.Num? && d.score.v < IssueThreshold
              && exists ref :: && ref in lh.categories[categoryId].auditRefs
                               && ref.weight > 0.0 && ref.id in lh.audits
                               && d == ToDetail(ref, lh.audits[ref.id])
  {
    var details := IssuesOf(lh, categoryId);
    TopIssuesProperties(details);
    EligibleDetailsAreEligible(lh.categories[categoryId].auditRefs, lh.audits);
    var top := CategoryIssues(lh, categoryId).value;
    forall d | d in top
      ensures d in details
    {
      assert d in multiset(top);
    }
  }

  /** The issues are ordered worst first: non-decreasing by score. */
  lemma IssuesSorted(lh: LighthouseResult, categoryId: string)
    requires CategoryIssues(lh, categoryId).Ok?
    ensures var issues := CategoryIssues(lh, categoryId).value;
            forall i, j :: 0 <= i < j < |issues| ==>
              issues[i].score.Num? && issues[j].score.Num? && issues[i].score.v <= issues[j].score.v
  {
    if categoryId in lh.categories {
      IssuesAreEligible(lh, categoryId);
      TopIssuesProperties(IssuesOf(lh, categoryId));
      var issues := CategoryIssues(lh, categoryId).value;
      forall i, j | 0 <= i < j < |issues|
        ensures issues[i].score.Num? && issues[j].score.Num? && issues[i].score.v <= issues[j].score.v
      {
        assert issues[i] in issues && issues[j] in issues;
      }
    }
  }

  /** There are min(5, number of eligible refs) issues. */
  lemma IssuesCount(lh: LighthouseResult, categoryId: string)
    requires CategoryIssues(lh, categoryId).Ok? && categoryId in lh.categories
    ensures var n := |EligibleRefs(lh.categories[categoryId].auditRefs, lh.audits)|;
            |CategoryIssues(lh, categoryId).value| == (if n <= MaxIssues then n else MaxIssues)
  {
    TopIssuesProperties(IssuesOf(lh, categoryId));
  }

  /** The issues are the worst five: an eligible audit that was cut scores no
      lower than any issue kept. */
  lemma IssuesAreWorst(lh: LighthouseResult, categoryId: string)
    requires CategoryIssues(lh, categoryId).Ok? && categoryId in lh.categories
    ensures var issues := CategoryIssues(lh, categoryId).value;
            forall d, i :: d in IssuesOf(lh, categoryId) && d !in issues && 0 <= i < |issues| ==>
              IssueKey(issues[i]) <= IssueKey(d)
  {
    IssuesAreTop(lh, categoryId);
    TopIssuesAreWorst(IssuesOf(lh, categoryId));
  }

  /** A present category whose refs all resolve yields the top issues of its
      eligible refs. */
  lemma IssuesAreTop(lh: LighthouseResult, categoryId: string)
    requires CategoryIssues(lh, categoryId).Ok? && categoryId in lh.categories
    ensures CategoryIssues(lh, categoryId).value == TopIssues(IssuesOf(lh, categoryId))
  {
  }

  lemma TopIssuesAreWorst(details: seq<AuditDetail>)
    ensures var top := TopIssues(details);
            forall d, i :: d in details && d !in top && 0 <= i < |top| ==> IssueKey(top[i]) <= IssueKey(d)
  {
    var sorted := SortBy(details, IssueKey);
    SortByCorrect(details, IssueKey);
    var top := TopIssues(details);
    assert |top| <= |sorted| && forall i :: 0 <= i < |top| ==> top[i] == sorted[i];
    assert forall j :: 0 <= j < |top| ==> sorted[j] in top;
    forall d, i | d in details && d !in top && 0 <= i < |top|
      ensures IssueKey(top[i]) <= IssueKey(d)
    {
      assert d in multiset(sorted);
      var j :| 0 <= j < |sorted| && sorted[j] == d;
      assert j >= |top|;
    }
  }

  /** Issues with equal scores keep the order of `auditRefs`: for every
      score, the kept issues with that score are the first ones with that
      score among the eligible refs. */
  lemma IssuesKeepRefOrder(lh: LighthouseResult, categoryId: string, k: real)
    requires CategoryIssues(lh, categoryId).Ok? && categoryId in lh.categories
    ensures WithKey(CategoryIssues(lh, categoryId).value, IssueKey, k)
         <= WithKey(IssuesOf(lh, categoryId), IssueKey, k)
  {
    var details := IssuesOf(lh, categoryId);
    var sorted := SortBy(details, IssueKey);
    SortByCorrect(details, IssueKey);
    TopIssuesProperties(details);
    var issues := CategoryIssues(lh, categoryId).value;
    WithKeyOfPrefix(sorted, |issues|, IssueKey, k);
    SortByStable(details, IssueKey, k);
  }

  /** The issues are a prefix of THE stable sort of the eligible refs: of any
      ordering that is sorted by score and keeps `auditRefs` order among equal
      scores. */
  lemma IssuesArePrefixOfStableSort(lh: LighthouseResult, categoryId: string, q: seq<AuditDetail>)
    requires CategoryIssues(lh, categoryId).Ok? && categoryId in lh.categories
    requires SortedBy(q, IssueKey)
    requires forall k :: WithKey(q, IssueKey, k) == WithKey(IssuesOf(lh, categoryId), IssueKey, k)
    ensures var issues := CategoryIssues(lh, categoryId).value;
            |issues| <= |q| && issues == q[..|issues|]
  {
    var details := IssuesOf(lh, categoryId);
    IssuesAreTop(lh, categoryId);
    var issues := CategoryIssues(lh, categoryId).value;
    assert issues == TopIssues(details);
    TopIsPrefixOfStableSort(details, q);
  }

  lemma TopIsPrefixOfStableSort(details: seq<AuditDetail>, q: seq<AuditDetail>)
    requires SortedBy(q, IssueKey)
    requires forall k :: WithKey(q, IssueKey, k) == WithKey(details, IssueKey, k)
    ensures var top := TopIssues(details); |top| <= |q| && top == q[..|top|]
  {
    SortByIsTheStableSort(details, q, IssueKey);
    TopIssuesProperties(details);
  }

  /** A report without `lighthouseResult` yields no PSIData. */
  lemma NoLighthouseNoData(lighthouse: Option<LighthouseResult>)
    ensures NormalizeReport(lighthouse).Ok? ==> lighthouse.Some?
    ensures lighthouse.None? ==> NormalizeReport(lighthouse) == Fail(NoLighthouseMessage)
  {
  }

  /** What a normalised report holds: scores in 0..100 when the category
      scores are fractions, at most five issues per list, each below 0.9,
      three metrics, and the audits passed through. */
  lemma NormalizedReport(lh: LighthouseResult)
    requires NormalizeReport(Some(lh)).Ok?
    requires forall c :: c in lh.categories && lh.categories[c].score.Some? ==>
               0.0 <= lh.categories[c].score.value <= 1.0
    ensures var data := NormalizeReport(Some(lh)).value;
            && 0 <= data.performanceScore <= 100 && 0 <= data.accessibilityScore <= 100
            && 0 <= data.bestPracticesScore <= 100 && 0 <= data.seoScore <= 100
            && |data.performanceIssues| <= MaxIssues && |data.seoIssues| <= MaxIssues
            && (forall d :: d in data.performanceIssues ==> d.score.Num? && d.score.v < IssueThreshold)
            && (forall d :: d in data.seoIssues ==> d.score.Num? && d.score.v < IssueThreshold)
            && |data.metrics| == 3
            && data.rawAudits == lh.audits
  {
    var data := NormalizeReport(Some(lh)).value;
    if "performance" in lh.categories {
      IssuesAreEligible(lh, "performance");
      IssuesCount(lh, "performance");
    }
    if "seo" in lh.categories {
      IssuesAreEligible(lh, "seo");
      IssuesCount(lh, "seo");
    }
  }

  /** A failed HTTP exchange surfaces the error body's message, or the status
      text when there is none; a successful one is normalised. */
  lemma FetchOutcome(response: PsiResponse, message: string)
    ensures FetchPageSpeedData(Fail(message)) == Fail(message)
    ensures !response.ok ==>
              FetchPageSpeedData(Ok(response)) == Fail(HttpErrorMessage(response.errorMessage, response.statusText))
    ensures response.ok ==> FetchPageSpeedData(Ok(response)) == NormalizeReport(response.lighthouseResult)
  {
  }

  /** A performance score of 0.42 with one eligible audit of score 0.3 gives
      a performance score of 42 and that audit as the only issue. */
  lemma ExampleSingleIssue(audit: Audit)
    requires audit.score == Num(0.3)
    ensures var lh := LighthouseResult(
                        map["reduce-js" := audit],
                        map["performance" := LighthouseCategory(Some(0.42), [AuditRef("reduce-js", 1.0)])]);
            NormalizeReport(Some(lh)).Ok? &&
            NormalizeReport(Some(lh)).value.performanceScore == 42 &&
            NormalizeReport(Some(lh)).value.performanceIssues == [ToDetail(AuditRef("reduce-js", 1.0), audit)]
  {
    var lh := LighthouseResult(
                map["reduce-js" := audit],
                map["performance" := LighthouseCategory(Some(0.42), [AuditRef("reduce-js", 1.0)])]);
    SingleRefIssue(lh, "performance", AuditRef("reduce-js", 1.0));
    assert "seo" != "performance";
    assert CategoryIssues(lh, "seo") == Ok([]);
    assert CategoryScore(lh, "performance") == MathRound(42.0);
  }

  /** A ref named after an inherited member, such as `constructor`, finds
      that member instead of `undefined`: nothing throws, the ref is skipped,
      and the report is normalised. */
  lemma InheritedIdIsSkipped(score: Option<real>)
    ensures var lh := LighthouseResult(map[], map["performance" := LighthouseCategory(score, [AuditRef("constructor", 1.0)])]);
            CategoryIssues(lh, "performance") == Ok([]) && NormalizeReport(Some(lh)).Ok?
  {
    var lh := LighthouseResult(map[], map["performance" := LighthouseCategory(score, [AuditRef("constructor", 1.0)])]);
    var refs := [AuditRef("constructor", 1.0)];
    assert IsInheritedMember(refs[0].id);
    assert EligibleRefs(refs, lh.audits) == [] by {
      assert refs[1..] == [];
    }
    assert "seo" != "performance";
  }

  /** A category whose only ref is eligible has that ref's audit as its
      only issue. */
  lemma SingleRefIssue(lh: LighthouseResult, categoryId: string, ref: AuditRef)
    requires categoryId in lh.categories && lh.categories[categoryId].auditRefs == [ref]
    requires IsEligible(ref, lh.audits)
    ensures CategoryIssues(lh, categoryId) == Ok([ToDetail(ref, lh.audits[ref.id])])
  {
    var refs := [ref];
    assert !Throws(refs[0], lh.audits);
    assert EligibleRefs(refs, lh.audits) == refs by {
      assert refs[1..] == [];
    }
    var details := EligibleDetails(refs, lh.audits);
    assert details == [ToDetail(ref, lh.audits[ref.id])];
    assert SortBy(details, IssueKey) == details by {
      assert details[..0] == [];
    }
  }
}
