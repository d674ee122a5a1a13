/** The progress screen shown while the analysis runs
    (frontend/src/components/AnalyzingLoader.tsx). Timers and the promise are discrete
    events: a tick of the step timer, a tick of the completion timer, and the promise
    resolving or rejecting. */
module AnalyzingLoader {
  import opened Wrappers
  import opened Strings
  import opened ApiTypes

  /** The number of entries of `processSteps`. */
  const StepCount := 4
  const LastStep := StepCount - 1

  const DefaultError := "An error occurred during analysis"

  /** `err.message || "An error occurred during analysis"`. */
  function ErrorText(message: string): (t: string)
    ensures t != []
    ensures message != [] ==> t == message
  {
    if message == [] then DefaultError else message
  }

  /** `[0, 1, ..., n - 1]`. */
  function Range(n: nat): (r: seq<nat>)
    ensures |r| == n && forall i | 0 <= i < n :: r[i] == i
  {
    seq(n, i requires 0 <= i < n => i)
  }

  /** `Array.from(new Set(s))`: the first occurrence of each element, in order. */
  function Dedup(s: seq<nat>): (r: seq<nat>)
    ensures forall x :: x in r <==> x in s
    decreases |s|
  {
    if s == [] then []
    else
      var d := Dedup(s[..|s| - 1]);
      if s[|s| - 1] in d then d else d + [s[|s| - 1]]
  }

  /** A list without duplicates keeps its order and contents through the set. */
  lemma {:induction false} DedupOfDistinct(s: seq<nat>)
    requires NoDuplicates(s)
    ensures Dedup(s) == s
    decreases |s|
  {
    if s != [] {
      var init := s[..|s| - 1];
      assert NoDuplicates(init);
      DedupOfDistinct(init);
      assert s == init + [s[|s| - 1]];
    }
  }

  // ----- state and events -----

  /** `hasPromise` is whether the component got a promise; `stopped` is whether the
      completion check fired, which clears both timers. */
  datatype LoaderState = LoaderState(
    hasPromise: bool,
    currentStep: nat,
    completedSteps: seq<nat>,
    error: Option<string>,
    apiData: Option<FullAnalysisResponse>,
    stopped: bool)

  datatype Event = StepTick | CheckTick | Resolve(data: FullAnalysisResponse) | Reject(message: string)

  function Initial(hasPromise: bool): LoaderState {
    LoaderState(hasPromise, 0, [], None, None, false)
  }

  /** The promise has settled once data or an error is recorded. */
  predicate Settled(st: LoaderState) {
    st.apiData.Some? || st.error.Some?
  }

  /** The completion check fires on this event. */
  predicate Fires(st: LoaderState, e: Event) {
    e.CheckTick? && st.error.None? && !st.stopped && st.currentStep == LastStep && st.apiData.Some?
  }

  /** The state after one event. Timers run only while there is no error and the completion
      has not fired; the promise settles once, and only when there is one. */
  function Next(st: LoaderState, e: Event): (r: LoaderState)
    ensures r.hasPromise == st.hasPromise
    ensures e.StepTick? || e.CheckTick? ==> r.apiData == st.apiData && r.error == st.error
    ensures e.Resolve? || e.Reject? ==>
      r.currentStep == st.currentStep && r.completedSteps == st.completedSteps && r.stopped == st.stopped
    ensures Settled(st) ==> r.apiData == st.apiData && r.error == st.error
    ensures st.error.Some? ==> r == st
  {
    match e
    case StepTick =>
      if st.error.Some? || st.stopped || st.currentStep >= LastStep then st
      else st.(
        completedSteps := if st.currentStep in st.completedSteps then st.completedSteps
                          else st.completedSteps + [st.currentStep],
        currentStep := st.currentStep + 1)
    case CheckTick =>
      if Fires(st, e) then st.(completedSteps := Dedup(st.completedSteps + [LastStep]), stopped := true)
      else st
    case Resolve(d) =>
      if st.hasPromise && !Settled(st) then st.(apiData := Some(d)) else st
    case Reject(m) =>
      if st.hasPromise && !Settled(st) then st.(error := Some(ErrorText(m))) else st
  }

  /** The data `onComplete` is scheduled with on this event, if it fires. */
  function Fired(st: LoaderState, e: Event): (r: Option<FullAnalysisResponse>)
    ensures r.Some? <==> Fires(st, e)
    ensures r.Some? ==> r == st.apiData
  {
    if Fires(st, e) then st.apiData else None
  }

  // ----- the invariant -----

  /** Before completion the completed steps are exactly those before the current one; on
      completion all four are; data and error exclude each other and need a promise. */
  predicate Inv(st: LoaderState) {
    st.currentStep <= LastStep
    && (!st.stopped ==> st.completedSteps == Range(st.currentStep))
    && (st.stopped ==> st.currentStep == LastStep && st.completedSteps == Range(StepCount)
                       && st.apiData.Some? && st.error.None?)
    && !(st.apiData.Some? && st.error.Some?)
    && (!st.hasPromise ==> !Settled(st))
    && (st.error.Some? ==> st.error.value != [])
  }

  lemma InitialInv(hasPromise: bool)
    ensures Inv(Initial(hasPromise))
  {
  }

  lemma NextKeepsInv(st: LoaderState, e: Event)
    requires Inv(st)
    ensures Inv(Next(st, e))
  {
    match e
    case StepTick =>
      if st.error.None? && !st.stopped && st.currentStep < LastStep {
        assert st.currentStep !in Range(st.currentStep);
        assert Range(st.currentStep) + [st.currentStep] == Range(st.currentStep + 1);
      }
    case CheckTick =>
      if Fires(st, e) {
        assert Range(LastStep) + [LastStep] == Range(StepCount);
        DedupOfDistinct(Range(StepCount));
      }
    case Resolve(_) =>
    case Reject(_) =>
  }

  /** A recorded error always has a message. */
  lemma RejectRecordsMessage(st: LoaderState, m: string)
    requires Inv(st) && st.hasPromise && !Settled(st)
    ensures Next(st, Reject(m)).error == Some(ErrorText(m))
    ensures m == [] ==> Next(st, Reject(m)).error == Some(DefaultError)
  {
  }

  /** Completed steps never repeat. */
  lemma InvMeansDistinctSteps(st: LoaderState)
    requires Inv(st)
    ensures NoDuplicates(st.completedSteps)
    ensures !st.stopped ==> forall s | s in st.completedSteps :: s < st.currentStep
  {
  }

  /** The step never decreases, completed steps only grow at the end, and a step tick moves
      a running loader from step `p < 3` to `p + 1`, recording `p`. */
  lemma NextIsMonotone(st: LoaderState, e: Event)
    requires Inv(st)
    ensures Next(st, e).currentStep >= st.currentStep
    ensures st.completedSteps <= Next(st, e).completedSteps
    ensures e.StepTick? && st.error.None? && !st.stopped && st.currentStep < LastStep ==>
      Next(st, e).currentStep == st.currentStep + 1
      && Next(st, e).completedSteps == st.completedSteps + [st.currentStep]
    ensures e.StepTick? && st.currentStep == LastStep ==> Next(st, e) == st
  {
    NextKeepsInv(st, e);
    if e.StepTick? && st.error.None? && !st.stopped && st.currentStep < LastStep {
      assert st.currentStep !in Range(st.currentStep);
    }
    if Fires(st, e) {
      assert st.completedSteps == Range(LastStep);
      assert Range(LastStep) <= Range(StepCount);
    }
  }

  /** Once an error is recorded nothing changes and nothing completes. */
  lemma ErrorFreezes(st: LoaderState, e: Event)
    requires st.error.Some?
    ensures Next(st, e) == st && Fired(st, e).None?
  {
  }

  /** Once the completion fired nothing changes and it does not fire again. */
  lemma CompletionFreezes(st: LoaderState, e: Event)
    requires Inv(st) && st.stopped
    ensures Next(st, e) == st && Fired(st, e).None?
  {
  }

  // ----- runs -----

  /** The state after a sequence of events. */
  function Run(st: LoaderState, es: seq<Event>): LoaderState
    decreases |es|
  {
    if es == [] then st else Run(Next(st, es[0]), es[1..])
  }

  /** The data `onComplete` is scheduled with along a sequence of events. */
  function Outputs(st: LoaderState, es: seq<Event>): seq<FullAnalysisResponse>
    decreases |es|
  {
    if es == [] then []
    else
      (if Fired(st, es[0]).Some? then [Fired(st, es[0]).value] else []) + Outputs(Next(st, es[0]), es[1..])
  }

  function StepTicks(es: seq<Event>): nat
    decreases |es|
  {
    if es == [] then 0 else (if es[0].StepTick? then 1 else 0) + StepTicks(es[1..])
  }

  lemma {:induction false} RunKeepsInv(st: LoaderState, es: seq<Event>)
    requires Inv(st)
    ensures Inv(Run(st, es))
    decreases |es|
  {
    if es != [] {
      NextKeepsInv(st, es[0]);
      RunKeepsInv(Next(st, es[0]), es[1..]);
    }
  }

  /** `onComplete` is scheduled at most once, and never after the completion fired. */
  lemma {:induction false} CompletesAtMostOnce(st: LoaderState, es: seq<Event>)
    requires Inv(st)
    ensures |Outputs(st, es)| <= 1
    ensures st.stopped ==> Outputs(st, es) == []
    decreases |es|
  {
    if es != [] {
      NextKeepsInv(st, es[0]);
      CompletesAtMostOnce(Next(st, es[0]), es[1..]);
    }
  }

  /** Completing takes three step ticks, and the data scheduled is data the promise
      resolved with. */
  lemma {:induction false} CompletionNeedsTicksAndData(st: LoaderState, es: seq<Event>, d: FullAnalysisResponse)
    requires Inv(st) && d in Outputs(st, es)
    ensures st.currentStep + StepTicks(es) >= LastStep
    ensures st.apiData == Some(d) || Resolve(d) in es
    decreases |es|
  {
    var e := es[0];
    NextKeepsInv(st, e);
    if Fires(st, e) {
      CompletesAtMostOnce(Next(st, e), es[1..]);
    } else {
      CompletionNeedsTicksAndData(Next(st, e), es[1..], d);
      assert es == [e] + es[1..];
    }
  }

  /** Without a promise the loader never gets data or an error and never completes. */
  lemma NullPromiseNeverSettles(es: seq<Event>)
    ensures !Settled(Run(Initial(false), es)) && !Run(Initial(false), es).stopped
    ensures Outputs(Initial(false), es) == []
  {
    InitialInv(false);
    RunKeepsInv(Initial(false), es);
    NoPromiseNoOutputs(Initial(false), es);
    NoPromiseStaysUnsettled(Initial(false), es);
  }

  lemma {:induction false} NoPromiseStaysUnsettled(st: LoaderState, es: seq<Event>)
    requires Inv(st) && !st.hasPromise
    ensures !Run(st, es).hasPromise && !Settled(Run(st, es))
    decreases |es|
  {
    if es != [] {
      NextKeepsInv(st, es[0]);
      NoPromiseStaysUnsettled(Next(st, es[0]), es[1..]);
    }
  }

  lemma {:induction false} NoPromiseNoOutputs(st: LoaderState, es: seq<Event>)
    requires Inv(st) && !st.hasPromise
    ensures Outputs(st, es) == []
    decreases |es|
  {
    if es != [] {
      NextKeepsInv(st, es[0]);
      NoPromiseNoOutputs(Next(st, es[0]), es[1..]);
    }
  }

  /** A running loader that has its data completes after three step ticks and a check,
      scheduling that data with all four steps completed. */
  lemma DataAndThreeTicksComplete(st: LoaderState)
    requires Inv(st) && st.apiData.Some? && !st.stopped
    ensures var es := [StepTick, StepTick, StepTick, CheckTick];
      Outputs(st, es) == [st.apiData.value]
      && Run(st, es).stopped && Run(st, es).completedSteps == Range(StepCount)
  {
    var es := [StepTick, StepTick, StepTick, CheckTick];
    var s1 := Next(st, StepTick);
    var s2 := Next(s1, StepTick);
    var s3 := Next(s2, StepTick);
    NextKeepsInv(st, StepTick);
    NextKeepsInv(s1, StepTick);
    NextKeepsInv(s2, StepTick);
    NextKeepsInv(s3, CheckTick);
    assert s3.currentStep == LastStep;
    assert es[1..] == [StepTick, StepTick, CheckTick];
    assert es[1..][1..] == [StepTick, CheckTick];
    assert es[1..][1..][1..] == [CheckTick];
  }

  // ----- the screen -----

  datatype LoaderScreen = Failed(message: string) | Progress(currentStep: nat, completedSteps: seq<nat>)

  /** The error view replaces the progress view as soon as an error is recorded. */
  function ScreenOf(st: LoaderState): (v: LoaderScreen)
    requires Inv(st)
    ensures v.Failed? <==> st.error.Some?
    ensures v.Failed? ==> v.message == st.error.value && v.message != []
  {
    if st.error.Some? then Failed(st.error.value) else Progress(st.currentStep, st.completedSteps)
  }

  // ----- the component state -----

  class Loader {
    const hasPromise: bool
    var currentStep: nat
    var completedSteps: seq<nat>
    var error: Option<string>
    var apiData: Option<FullAnalysisResponse>
    var stopped: bool

    function State(): LoaderState
      reads this
    {
      LoaderState(hasPromise, currentStep, completedSteps, error, apiData, stopped)
    }

    predicate Valid()
      reads this
    {
      Inv(State())
    }

    constructor(hasPromise: bool)
      ensures State() == Initial(hasPromise)
      ensures Valid()
    {
      this.hasPromise := hasPromise;
      currentStep := 0;
      completedSteps := [];
      error := None;
      apiData := None;
      stopped := false;
    }

    /** The step interval: advance one step and record the one left, until the last. */
    method OnStepTick()
      requires Valid()
      modifies this
      ensures State() == Next(old(State()), StepTick)
      ensures Valid()
    {
      NextKeepsInv(State(), StepTick);
      if error.None? && !stopped && currentStep < LastStep {
        if currentStep !in completedSteps {
          completedSteps := completedSteps + [currentStep];
        }
        currentStep := currentStep + 1;
      }
    }

    /** The completion interval: once on the last step with data, record the last step,
        stop both timers and schedule `onComplete`. */
    method OnCheckTick() returns (completed: Option<FullAnalysisResponse>)
      requires Valid()
      modifies this
      ensures State() == Next(old(State()), CheckTick)
      ensures completed == Fired(old(State()), CheckTick)
      ensures Valid()
    {
      NextKeepsInv(State(), CheckTick);
      completed := None;
      if error.None? && !stopped && currentStep == LastStep && apiData.Some? {
        completedSteps := Dedup(completedSteps + [LastStep]);
        completed := apiData;
        stopped := true;
      }
    }

    /** The promise resolved. */
    method OnResolve(data: FullAnalysisResponse)
      requires Valid()
      modifies this
      ensures State() == Next(old(State()), Resolve(data))
      ensures Valid()
    {
      NextKeepsInv(State(), Resolve(data));
      if hasPromise && apiData.None? && error.None? {
        apiData := Some(data);
      }
    }

    /** The promise rejected with an error whose message is `message`. */
    method OnReject(message: string)
      requires Valid()
      modifies this
      ensures State() == Next(old(State()), Reject(message))
      ensures Valid()
    {
      NextKeepsInv(State(), Reject(message));
      if hasPromise && apiData.None? && error.None? {
        error := Some(if message == [] then DefaultError else message);
      }
    }
  }
}
