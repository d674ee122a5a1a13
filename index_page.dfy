/** The page that switches between the three screens (frontend/src/pages/Index.tsx). The
    request `analyzeResume` starts is recorded in a log, and the promise held by the page is
    the index of the request it stands for. */
module IndexPage {
  import opened Wrappers
  import opened ApiTypes
  import opened UploadScreen

  datatype AppScreen = Upload | Analyzing | Workspace

  /** The page's state; `requests` lists the calls to `analyzeResume`, oldest first. */
  datatype AppState = AppState(
    screen: AppScreen,
    resumeFile: Option<FileInfo>,
    jobDescription: string,
    promise: Option<nat>,
    result: Option<FullAnalysisResponse>,
    requests: seq<Submission>)

  const Initial := AppState(Upload, None, [], None, None, [])

  /** `handleAnalyze`: keep the inputs, start a request, hold its promise, show the loader. */
  function Analyze(st: AppState, file: FileInfo, jd: string): (r: AppState)
    ensures Valid(r)
    ensures Render(r) == [LoaderBranch(Some(|st.requests|))]
  {
    st.(resumeFile := Some(file), jobDescription := jd, promise := Some(|st.requests|),
        requests := st.requests + [Submission(file, jd)], screen := Analyzing)
  }

  /** `handleAnalysisComplete`: keep the result and show the workspace. */
  function Complete(st: AppState, data: FullAnalysisResponse): (r: AppState)
    ensures Valid(st) ==> Valid(r)
    ensures r.requests == st.requests && r.promise == st.promise
  {
    st.(result := Some(data), screen := Workspace)
  }

  /** `handleCancel`: drop the promise and go back to the upload screen. */
  function Cancel(st: AppState): (r: AppState)
    ensures Valid(st) ==> Valid(r)
    ensures r.promise.None? && r.requests == st.requests
  {
    st.(promise := None, screen := Upload)
  }

  /** The branches of the page's render. */
  datatype Branch =
    | UploadBranch
    | LoaderBranch(promise: Option<nat>)
    | WorkspaceBranch(data: FullAnalysisResponse, file: Option<FileInfo>, jobDescription: string)

  function Render(st: AppState): (r: seq<Branch>)
    ensures |r| <= 1
    ensures r == [] <==> st.screen == Workspace && st.result.None?
  {
    (if st.screen == Upload then [UploadBranch] else [])
    + (if st.screen == Analyzing then [LoaderBranch(st.promise)] else [])
    + (if st.screen == Workspace && st.result.Some? then
         [WorkspaceBranch(st.result.value, st.resumeFile, st.jobDescription)]
       else [])
  }

  /** The states the handlers can reach: the loader always has a promise, and it is the
      most recent request; the workspace always has a result. */
  predicate Valid(st: AppState) {
    (st.promise.Some? ==> st.promise.value == |st.requests| - 1)
    && (st.screen == Analyzing ==> st.promise.Some?)
    && (st.screen == Workspace ==> st.result.Some?)
  }

  lemma InitialIsValid()
    ensures Valid(Initial)
    ensures Render(Initial) == [UploadBranch]
    ensures Initial.resumeFile.None? && Initial.jobDescription == [] && Initial.requests == []
  {
  }

  /** In a reachable state exactly one branch renders, the one of the current screen. */
  lemma ExactlyOneBranch(st: AppState)
    requires Valid(st)
    ensures |Render(st)| == 1
    ensures Render(st)[0].UploadBranch? <==> st.screen == Upload
    ensures Render(st)[0].LoaderBranch? <==> st.screen == Analyzing
    ensures Render(st)[0].WorkspaceBranch? <==> st.screen == Workspace
  {
  }

  /** The workspace renders only on its screen with a result, and then shows that result
      with the kept file and job description. */
  lemma WorkspaceGuard(st: AppState)
    ensures (exists b | b in Render(st) :: b.WorkspaceBranch?) <==> st.screen == Workspace && st.result.Some?
    ensures st.screen == Workspace && st.result.Some? ==>
      WorkspaceBranch(st.result.value, st.resumeFile, st.jobDescription) in Render(st)
  {
    if st.screen == Workspace && st.result.Some? {
      assert Render(st)[0].WorkspaceBranch?;
    }
  }

  /** Without its guard on the result the page would render nothing on the workspace screen. */
  lemma WorkspaceWithoutResultRendersNothing(st: AppState)
    requires st.screen == Workspace && st.result.None?
    ensures Render(st) == [] && !Valid(st)
  {
  }

  /** `handleAnalyze` starts exactly one request, with the inputs it keeps. */
  lemma AnalyzeStartsOneRequest(st: AppState, file: FileInfo, jd: string)
    ensures var next := Analyze(st, file, jd);
      next.requests == st.requests + [Submission(file, jd)]
      && next.promise == Some(|next.requests| - 1)
      && next.resumeFile == Some(file) && next.jobDescription == jd
      && next.result == st.result
      && Render(next) == [LoaderBranch(Some(|st.requests|))]
  {
  }

  /** Cancelling keeps the file, the job description and any earlier result. */
  lemma CancelKeepsInputs(st: AppState)
    ensures Cancel(st).resumeFile == st.resumeFile && Cancel(st).jobDescription == st.jobDescription
    ensures Cancel(st).result == st.result && Cancel(st).requests == st.requests
    ensures Cancel(st).promise.None? && Render(Cancel(st)) == [UploadBranch]
  {
  }

  /** Completing shows the workspace with the data it was given. */
  lemma CompleteShowsData(st: AppState, data: FullAnalysisResponse)
    ensures Render(Complete(st, data)) == [WorkspaceBranch(data, st.resumeFile, st.jobDescription)]
    ensures Complete(st, data).requests == st.requests
  {
  }

  // ----- traces of handler calls -----

  datatype Action = AnalyzeAction(file: FileInfo, jd: string) | CompleteAction(data: FullAnalysisResponse) | CancelAction

  function Apply(st: AppState, a: Action): AppState {
    match a
    case AnalyzeAction(f, jd) => Analyze(st, f, jd)
    case CompleteAction(d) => Complete(st, d)
    case CancelAction => Cancel(st)
  }

  /** Each handler keeps the page valid; only `handleAnalyze` starts a request. */
  lemma ApplyKeepsValid(st: AppState, a: Action)
    requires Valid(st)
    ensures Valid(Apply(st, a))
    ensures |Apply(st, a).requests| == |st.requests| + (if a.AnalyzeAction? then 1 else 0)
  {
  }

  /** The state after a sequence of handler calls, the last one last. */
  function Replay(st: AppState, actions: seq<Action>): AppState
    decreases |actions|
  {
    if actions == [] then st
    else Apply(Replay(st, actions[..|actions| - 1]), actions[|actions| - 1])
  }

  function AnalyzeCount(actions: seq<Action>): nat
    decreases |actions|
  {
    if actions == [] then 0
    else AnalyzeCount(actions[..|actions| - 1]) + (if actions[|actions| - 1].AnalyzeAction? then 1 else 0)
  }

  /** Every sequence of handler calls keeps the page in a valid state, and the page starts
      one request per `handleAnalyze` and no other. */
  lemma {:induction false} ReplayKeepsValid(actions: seq<Action>)
    ensures Valid(Replay(Initial, actions))
    ensures |Replay(Initial, actions).requests| == AnalyzeCount(actions)
    ensures |Render(Replay(Initial, actions))| == 1
    decreases |actions|
  {
    if actions != [] {
      var init := actions[..|actions| - 1];
      ReplayKeepsValid(init);
      ApplyKeepsValid(Replay(Initial, init), actions[|actions| - 1]);
    }
    ExactlyOneBranch(Replay(Initial, actions));
  }

  // ----- the component state -----

  class ScreenController {
    var currentScreen: AppScreen
    var resumeFile: Option<FileInfo>
    var jobDescription: string
    var analysisPromise: Option<nat>
    var analysisResult: Option<FullAnalysisResponse>
    var requests: seq<Submission>

    function State(): AppState
      reads this
    {
      AppState(currentScreen, resumeFile, jobDescription, analysisPromise, analysisResult, requests)
    }

    constructor()
      ensures State() == Initial && Valid(State())
    {
      currentScreen := Upload;
      resumeFile := None;
      jobDescription := [];
      analysisPromise := None;
      analysisResult := None;
      requests := [];
    }

    method HandleAnalyze(file: FileInfo, jd: string)
      requires Valid(State())
      modifies this
      ensures State() == Analyze(old(State()), file, jd)
      ensures Valid(State())
    {
      resumeFile := Some(file);
      jobDescription := jd;
      var promise := |requests|;
      requests := requests + [Submission(file, jd)];
      analysisPromise := Some(promise);
      currentScreen := Analyzing;
    }

    method HandleAnalysisComplete(data: FullAnalysisResponse)
      requires Valid(State())
      modifies this
      ensures State() == Complete(old(State()), data)
      ensures Valid(State())
    {
      analysisResult := Some(data);
      currentScreen := Workspace;
    }

    method HandleCancel()
      requires Valid(State())
      modifies this
      ensures State() == Cancel(old(State()))
      ensures Valid(State())
    {
      analysisPromise := None;
      currentScreen := Upload;
    }
  }
}
