/** The shutdown contract of the socket, over every run of its step machine. */
module SocketTheorems {
  import opened Wrappers
  import opened ClientPhase
  import opened SocketMachine
  import opened SocketSafety

  lemma {:induction false} RunKeeps(s: State, events: seq<Event>)
    requires Inv(s) && IsRun(s, events)
    ensures Inv(Exec(s, events)) && Later(s, Exec(s, events))
    decreases |events|
  {
    if events != [] {
      StepKeeps(s, events[0]);
      RunKeeps(Apply(s, events[0]), events[1..]);
    }
  }

  lemma ReachableKeeps(s: State)
    requires Reachable(s)
    ensures Inv(s)
  {
    var cfg, handlers: nat, events :|
      IsRun(Initial(cfg, handlers), events) && Exec(Initial(cfg, handlers), events) == s;
    RunKeeps(Initial(cfg, handlers), events);
  }

  lemma ExecCons(s: State, e: Event, rest: seq<Event>)
    requires Enabled(s, e) && IsRun(Apply(s, e), rest)
    ensures IsRun(s, [e] + rest) && Exec(s, [e] + rest) == Exec(Apply(s, e), rest)
  {
    assert ([e] + rest)[1..] == rest;
  }

  lemma {:induction false} ExecAppend(s: State, a: seq<Event>, b: seq<Event>)
    requires IsRun(s, a) && IsRun(Exec(s, a), b)
    ensures IsRun(s, a + b) && Exec(s, a + b) == Exec(Exec(s, a), b)
    decreases |a|
  {
    if a == [] {
      assert a + b == b;
    } else {
      assert (a + b)[0] == a[0] && (a + b)[1..] == a[1..] + b;
      ExecAppend(Apply(s, a[0]), a[1..], b);
    }
  }

  lemma ReachableOn(s: State, events: seq<Event>)
    requires Reachable(s) && IsRun(s, events)
    ensures Reachable(Exec(s, events))
  {
    var cfg, handlers: nat, before :|
      IsRun(Initial(cfg, handlers), before) && Exec(Initial(cfg, handlers), before) == s;
    ExecAppend(Initial(cfg, handlers), before, events);
  }

  // ---------------------------------------------------------------- one close, published late enough

  /**
   * At most one close is ever published. Unless the watchdog published it, or a `logout()` whose
   * `end()` short-circuited inside an end handler, then at that instant the teardown and
   * `initPromise` had settled and the client, if one was ever built, had been freed.
   */
  lemma OneCloseAfterTeardown(s: State)
    requires Reachable(s)
    ensures |s.rep.log| <= 1
    ensures s.rep.log != [] ==>
              var p := s.rep.log[0];
              p.cause == Watchdog || p.cause == Fallback(true) ||
              (p.closeSettled && p.initSettled && p.clientReleased)
  {
    ReachableKeeps(s);
  }

  /** What has been published stays the one publication of the run. */
  lemma {:induction false} PublicationIsFinal(s: State, events: seq<Event>)
    requires Inv(s) && IsRun(s, events) && s.rep.log != []
    ensures Exec(s, events).rep.log == s.rep.log
    decreases |events|
  {
    if events != [] {
      StepKeeps(s, events[0]);
      PublicationIsFinal(Apply(s, events[0]), events[1..]);
    }
  }

  /** Every `logout()` that has settled leaves a terminal close claimed. */
  lemma SettledLogoutIsClaimed(s: State, i: nat)
    requires Reachable(s) && i < |s.calls| && s.calls[i].kind == Logout && s.calls[i].pc == LSettled
    ensures s.rep.claimed
  {
    ReachableKeeps(s);
    assert CallOk(s, s.calls[i]);
  }

  // ---------------------------------------------------------------- the client's one owner

  /**
   * The client is freed at most once, is never peeked at once its release has begun, and
   * `discard()` never releases it: a startup that fails always joins a close instead.
   */
  lemma ClientReleasedOnce(s: State)
    requires Reachable(s)
    ensures s.hand.frees <= 1
    ensures Peek(s.own.phase).Some? ==>
              s.hand.frees == 0 && !s.own.close.CRelease? && !ReleaseInFlight(s.hand.tracked)
    ensures !s.boot.pc.IDiscard?
    ensures s.own.close.CSettled? && s.boot.pc.IDone? && s.boot.built ==> s.hand.frees == 1
  {
    ReachableKeeps(s);
  }

  /** `getClient()` deciding at once: `initError`, closing, `initialized`, in the source's order. */
  function ReadyClient(s: State): Option<Client> {
    if s.boot.error || IsClosing(s.own.phase) || !s.boot.initialized then None else Peek(s.own.phase)
  }

  /** `getClient()` deciding after `initPromise`. */
  function BuiltClient(s: State): Option<Client> {
    if s.boot.error || IsClosing(s.own.phase) then None else Peek(s.own.phase)
  }

  /**
   * Neither decision of `getClient` yields a client that has not been run, nor one whose close
   * has begun; and after a startup that settled on a live socket the second always yields it.
   */
  lemma AdmittedClientRuns(s: State)
    requires Reachable(s)
    ensures ReadyClient(s).Some? ==> s.boot.ran && s.own.phase.Running?
    ensures s.boot.pc.IDone? && BuiltClient(s).Some? ==> s.boot.ran && s.own.phase.Running?
    ensures s.boot.pc.IDone? && !IsClosing(s.own.phase) ==> BuiltClient(s).Some?
  {
    ReachableKeeps(s);
  }

  // ---------------------------------------------------------------- free() under disconnect()

  /** Teardown has already called `ws.close()` and has not yet handed the client over. */
  predicate PastWsClose(s: State) {
    Teardown(s.own.close) && !s.own.close.CScheduled?
  }

  /** A `ws.connect()` that reopens the facade behind a teardown that has already closed it. */
  predicate Reopens(s: State, e: Event) {
    e.CallWsConnect? && PastWsClose(s) && Peek(s.own.phase).Some? && !WsBusy(s.ws)
  }

  ghost predicate NeverReopens(s: State, events: seq<Event>)
    requires IsRun(s, events)
    decreases |events|
  {
    events == [] || (!Reopens(s, events[0]) && NeverReopens(Apply(s, events[0]), events[1..]))
  }

  predicate WsOk(s: State) {
    && !s.hand.freedBusy
    && (WsBusy(s.ws) && (s.ws.WDisconnecting? || Peek(s.own.phase).Some?) ==>
          s.own.close.CIdle? || s.own.close.CScheduled? || (s.own.close.CWs? && s.own.joined.None?))
    && (s.ws.WOpen? && Peek(s.own.phase).Some? ==> s.own.close.CIdle? || s.own.close.CScheduled?)
    && (s.ws.WDisconnecting? ==> Peek(s.own.phase).Some?)
  }

  lemma StartupStepIsSafe(s: State, ok: bool)
    requires Inv(s) && WsOk(s) && InitEnabled(s)
    ensures WsOk(InitNext(s, ok))
  {
    if s.boot.pc.IRejected? {
      CatchKeeps(s);
    }
  }

  lemma CloseStepIsSafe(s: State, ok: bool)
    requires Inv(s) && WsOk(s) && CloseEnabled(s)
    ensures WsOk(CloseNext(s, ok))
  {
    match s.own.close {
      case CScheduled =>
      case CRelease(_) =>
      case CFlush(_) =>
      case CHandler(_) =>
      case _ =>
    }
  }

  lemma CallStepIsSafe(s: State, i: nat)
    requires Inv(s) && WsOk(s) && i < |s.calls| && CallEnabled(s, s.calls[i])
    ensures WsOk(CallNext(s, i))
  {
  }

  lemma StepIsSafe(s: State, e: Event)
    requires Inv(s) && WsOk(s) && Enabled(s, e) && !Reopens(s, e)
    ensures WsOk(Apply(s, e))
  {
    match e {
      case InitStep(ok) => StartupStepIsSafe(s, ok);
      case CloseStep(ok) => CloseStepIsSafe(s, ok);
      case CallStep(i) => CallStepIsSafe(s, i);
      case _ =>
    }
  }

  lemma {:induction false} RunIsSafe(s: State, events: seq<Event>)
    requires Inv(s) && WsOk(s) && IsRun(s, events) && NeverReopens(s, events)
    ensures WsOk(Exec(s, events))
    decreases |events|
  {
    if events != [] {
      StepIsSafe(s, events[0]);
      StepKeeps(s, events[0]);
      RunIsSafe(Apply(s, events[0]), events[1..]);
    }
  }

  /** `free()` never runs under a `disconnect()` in a run that never reopens a facade torn down. */
  lemma FreeIsNeverUnderDisconnect(cfg: Config, handlers: nat, events: seq<Event>)
    requires IsRun(Initial(cfg, handlers), events) && NeverReopens(Initial(cfg, handlers), events)
    ensures !Exec(Initial(cfg, handlers), events).hand.freedBusy
  {
    RunIsSafe(Initial(cfg, handlers), events);
  }
}
