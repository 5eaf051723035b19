/** App.tsx: the audit's state machine. One state record is replaced at
    each step of `handleAnalyze` (Idle, FetchingPsi, AnalyzingGemini, then
    Complete, or Error from either network stage) and by "Try Again". The
    two network calls are parameters: their outcomes are inputs. */
module App {
  import opened Types
  import PsiService
  import InputForm

  const UnexpectedErrorMessage := "An unexpected error occurred."

  /** `error.message || "An unexpected error occurred."`. */
  function ErrorText(message: string): (r: string)
    ensures r != ""
    ensures message != "" ==> r == message
    ensures message == "" ==> r == UnexpectedErrorMessage
  {
    if message != "" then message else UnexpectedErrorMessage
  }

  function IdleState(): AnalysisState
  {
    AnalysisState(Idle, None, None, None)
  }

  function ErrorState(message: string): AnalysisState
  {
    AnalysisState(Error, Some(ErrorText(message)), None, None)
  }

  predicate IsLoadingStage(stage: AnalysisStage)
  {
    stage == FetchingPsi || stage == AnalyzingGemini
  }

  /** What each stage carries, as the transitions of `handleAnalyze` set it.
      In Complete the analysis may still be missing: the response body is
      not checked, and a JSON `null` is stored as it is. */
  predicate StageCarries(s: AnalysisState)
  {
    match s.stage
    case Idle => s.error.None? && s.psiData.None? && s.geminiResult.None?
    case FetchingPsi => s.error.None? && s.psiData.None? && s.geminiResult.None?
    case AnalyzingGemini => s.error.None? && s.psiData.Some? && s.geminiResult.None?
    case Complete => s.error.None? && s.psiData.Some?
    case Error => s.error.Some? && s.error.value != "" && s.psiData.None? && s.geminiResult.None?
  }

  /** Which data a state satisfying StageCarries holds, read off its stage. */
  lemma StageDetermines(s: AnalysisState)
    requires StageCarries(s)
    ensures s.error.Some? <==> s.stage == Error
    ensures s.psiData.Some? <==> s.stage == AnalyzingGemini || s.stage == Complete
    ensures s.geminiResult.Some? ==> s.stage == Complete
    ensures s.stage == Error ==> s.error.value != ""
  {
  }

  class AnalysisSession {
    /** The React state of App. */
    var state: AnalysisState

    ghost predicate Valid()
      reads this
    {
      StageCarries(state)
    }

    /** `useState({ stage: IDLE })`. */
    constructor()
      ensures Valid() && state == IdleState()
    {
      state := IdleState();
    }

    /** The `isLoading` prop handed to the form. */
    function IsLoading(): (r: bool)
      reads this
      ensures r <==> state.stage == FetchingPsi || state.stage == AnalyzingGemini
    {
      IsLoadingStage(state.stage)
    }

    /** The Dashboard is rendered only for a complete audit holding both
        the telemetry and the analysis. */
    function ShowsDashboard(): (r: bool)
      reads this
      ensures r ==> state.stage == Complete && state.psiData.Some? && state.geminiResult.Some?
      ensures state.stage == Complete && state.geminiResult.Some? && StageCarries(state) ==> r
    {
      state.stage == Complete && state.psiData.Some? && state.geminiResult.Some?
    }

    /** The first step of `handleAnalyze`: the state is replaced, whatever
        it held, by FetchingPsi with no data. Only the form starts a run,
        and its guard admits none while one is loading. */
    method Begin()
      requires Valid() && !IsLoading()
      modifies this
      ensures Valid()
      ensures state == AnalysisState(FetchingPsi, None, None, None)
    {
      state := AnalysisState(FetchingPsi, None, None, None);
    }

    /** The telemetry call returns: on success the run moves on to the
        analysis and hands it the data; on failure it ends in Error. */
    method TelemetryArrived(outcome: Outcome<PSIData>) returns (forAnalysis: Option<PSIData>)
      requires Valid() && state.stage == FetchingPsi
      modifies this
      ensures Valid()
      ensures outcome.Ok? ==> state == AnalysisState(AnalyzingGemini, None, Some(outcome.value), None)
                              && forAnalysis == Some(outcome.value)
      ensures outcome.Fail? ==> state == ErrorState(outcome.message) && forAnalysis.None?
    {
      match outcome
      case Ok(psiData) =>
        state := AnalysisState(AnalyzingGemini, None, Some(psiData), None);
        forAnalysis := Some(psiData);
      case Fail(message) =>
        state := ErrorState(message);
        forAnalysis := None;
    }

    /** The analysis call returns: the run ends in Complete with both the
        telemetry and the analysis, or in Error with neither. */
    method AnalysisArrived(outcome: Outcome<Option<AnalysisResult>>)
      requires Valid() && state.stage == AnalyzingGemini
      modifies this
      ensures Valid()
      ensures outcome.Ok? ==> state == AnalysisState(Complete, None, old(state.psiData), outcome.value)
      ensures outcome.Fail? ==> state == ErrorState(outcome.message)
    {
      if outcome.Ok? {
        state := AnalysisState(Complete, None, state.psiData, outcome.value);
      } else {
        state := ErrorState(outcome.message);
      }
    }

    /** "Try Again", offered only with the error message. */
    method TryAgain()
      requires Valid() && state.stage == Error
      modifies this
      ensures Valid()
      ensures state == IdleState()
    {
      state := IdleState();
    }

    /** A submission of the form: when its guard lets it through, a run
        starts with the normalised address. */
    method Submit(url: string, goal: string) returns (call: Option<AnalyzeArgs>)
      requires Valid()
      modifies this
      ensures Valid()
      ensures call.Some? <==> !old(IsLoading()) && url != ""
      ensures call.Some? ==> call.value == AnalyzeArgs(InputForm.NormalizeUrl(url), goal)
                             && state == AnalysisState(FetchingPsi, None, None, None)
      ensures call.None? ==> state == old(state)
    {
      call := InputForm.HandleSubmit(url, goal, IsLoading());
      if call.Some? {
        Begin();
      }
    }

    /** One whole run of `handleAnalyze`, given what the telemetry exchange
        and the analysis call produce. Returns the arguments the analysis
        was called with, None when it was not called. */
    method HandleAnalyze(url: string, goal: string, telemetry: Outcome<PsiService.PsiResponse>,
                         analysis: Outcome<Option<AnalysisResult>>)
      returns (analysisCall: Option<(PSIData, string, string)>)
      requires Valid() && !IsLoading()
      modifies this
      ensures Valid() && !IsLoading()
      ensures var fetched := PsiService.FetchPageSpeedData(telemetry);
              && (fetched.Fail? ==> state == ErrorState(fetched.message) && analysisCall.None?)
              && (fetched.Ok? ==> analysisCall == Some((fetched.value, goal, url)))
              && (fetched.Ok? && analysis.Ok? ==>
                    state == AnalysisState(Complete, None, Some(fetched.value), analysis.value))
              && (fetched.Ok? && analysis.Fail? ==> state == ErrorState(analysis.message))
    {
      Begin();
      var psiData := TelemetryArrived(PsiService.FetchPageSpeedData(telemetry));
      analysisCall := None;
      if psiData.Some? {
        analysisCall := Some((psiData.value, goal, url));
        AnalysisArrived(analysis);
      }
    }
  }
}
