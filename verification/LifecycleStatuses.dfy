/** Which status the close of a run carries, said of the event that ended the session. */
module LifecycleStatuses {
  import opened Wrappers
  import opened LifecycleTrace
  import opened LifecycleDispatcher
  import opened LifecycleOrder

  /** The close status for a `<failure>` by its wire code; any other code, and none at all, is a plain 428. */
  const FAILURES: map<int, int> := map[
    401 := 401, 403 := 401, 406 := 401,  // logged out
    402 := 403,                          // banned for a while
    405 := 405,                          // outdated
    408 := 408,                          // timed out
    411 := 411,                          // multi-device mismatch
    501 := 503, 503 := 503,              // the service is unavailable
    515 := 515]                          // restart required

  function FailureMeans(reason: Option<int>): int {
    if reason.Some? && reason.value in FAILURES then FAILURES[reason.value] else 428
  }

  /** What a step that claims the close says the reason is. */
  predicate Means(step: Step, status: int) {
    match step
    case TerminalReport(given, _) => status == given
    case LogoutFallback(_) => status == 401
    case Engine(e, _) =>
      (match e
       case LoggedOut => status == 401
       case StreamReplaced => status == 440
       case ClientOutdated => status == 405
       case TemporaryBan => status == 403
       case QrCodesExhausted => status == 408
       case Disconnected => status == 428
       case ConnectFailure(reason) => status == FailureMeans(reason)
       case _ => false)
    case _ => false
  }

  /** The first claim of a run. */
  predicate FirstClaim(steps: seq<Step>, k: nat) {
    k < |steps| && Claims(steps, k) && forall j: nat :: j < k ==> !Claims(steps, j)
  }

  lemma EngineMeans(s: Socket, e: EngineEvent, w: Weather)
    requires Good(s) && Ends(e, s.autoReconnect)
    ensures var s' := Dispatch(s, e, w);
            |s'.errors| == |s.errors| + 1 && s'.errors[..|s.errors|] == s.errors
            && Means(Engine(e, w), s'.errors[|s.errors|])
  {
    EngineOutcome(e, s.autoReconnect);
    if e.ConnectFailure? {
      FailureIsMapped(e.reason);
    }
  }

  lemma FailureIsMapped(reason: Option<int>)
    ensures MapConnectFailure(reason) == FailureMeans(reason)
  {
  }

  /** A claim adds its status to those reported, and no other step adds one. */
  lemma StepMeans(s: Socket, steps: seq<Step>, n: nat)
    requires n < |steps| && Tells(s, steps, n) && Enabled(s, steps[n])
    ensures var s' := Apply(s, steps[n]);
            if Claims(steps, n)
            then |s'.errors| == |s.errors| + 1 && s'.errors[..|s.errors|] == s.errors
                 && Means(steps[n], s'.errors[|s.errors|])
            else s'.errors == s.errors
  {
    if steps[n].Engine? {
      if Claims(steps, n) {
        EngineMeans(s, steps[n].e, steps[n].w);
      } else {
        EngineOutcome(steps[n].e, s.autoReconnect);
      }
    }
  }

  /** The first status reported is the first claim's. */
  lemma {:induction false} FirstErrorMeans(steps: seq<Step>, n: nat)
    requires IsRun(INITIAL, steps) && n <= |steps|
    ensures var errors := At(steps, n).errors;
            if errors == [] then forall j: nat :: j < n ==> !Claims(steps, j)
            else exists k :: 0 <= k < n && FirstClaim(steps, k) && Means(steps[k], errors[0])
  {
    if n > 0 {
      FirstErrorMeans(steps, n - 1);
      StateTells(steps, n - 1);
      AfterNext(INITIAL, steps, n - 1);
      var s := At(steps, n - 1);
      StepMeans(s, steps, n - 1);
      var s' := At(steps, n);
      if s.errors != [] {
        assert s'.errors[0] == s'.errors[..|s.errors|][0];
      } else if s'.errors != [] {
        assert FirstClaim(steps, n - 1);
      }
    }
  }

  /**
   * The close a run publishes has the status that says why the session ended: that of the first step to claim it,
   * by that step's own meaning, whoever claims later and whichever step publishes.
   */
  lemma CloseSaysWhy(steps: seq<Step>, i: nat) returns (k: nat)
    requires IsRun(INITIAL, steps)
    requires i < |TraceOf(steps)| && Carries(TraceOf(steps)[i], Close)
    ensures FirstClaim(steps, k)
    ensures TraceOf(steps)[i].update.lastDisconnectStatus.Some?
    ensures Means(steps[k], TraceOf(steps)[i].update.lastDisconnectStatus.value)
  {
    CloseCarriesFirstError(steps, i);
    AfterAll(INITIAL, steps);
    FirstErrorMeans(steps, |steps|);
    k :| 0 <= k < |steps| && FirstClaim(steps, k) && Means(steps[k], Exec(INITIAL, steps).errors[0]);
  }
}
