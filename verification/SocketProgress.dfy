/**
 * No deadlock, and termination: once callers stop calling, every promise of the socket settles.
 * The rank of a state bounds the continuations left to run; it is what a wait cycle would defeat.
 */
module SocketProgress {
  import opened Wrappers
  import opened ClientPhase
  import opened SocketMachine
  import opened SocketSafety
  import opened SocketTheorems

  function InitRank(pc: InitPc): nat {
    match pc
    case IAuth => 12
    case IWrap => 11
    case ICreate => 10
    case IPushName => 9
    case IProps => 8
    case IIdentity => 7
    case IProfile => 6
    case IRejected => 5
    case IRefusedJid => 4
    case ISettle => 3
    case IJoin => 2
    case IDiscard => 2
    case IDone => 0
  }

  function ReleaseRank(r: ReleasePc): nat {
    match r
    case RIdle => 8
    case RDisconnect => 7
    case RTail(n) => if n <= 5 then 1 + n else 6
    case RDone => 0
  }

  function CloseRank(c: ClosePc, handlers: nat): nat {
    match c
    case CIdle => handlers + 30
    case CScheduled => handlers + 29
    case CWs => handlers + 28
    case CFallback => handlers + 27
    case CBarrier(n) => handlers + 20 + (if n <= 5 then n else 5)
    case CFlush(n) => handlers + 12 + (if n <= 5 then n else 5)
    case CHandler(i) => 11 + (if i <= handlers then handlers - i else 0)
    case CRelease(r) => 2 + ReleaseRank(r)
    case CDrain => 1
    case CSettled(_) => 0
  }

  function WsRank(w: WsPc): nat {
    match w
    case WOpen => 3
    case WScheduled => 2
    case WDisconnecting => 1
    case WNoClient => 1
    case WClosed(_) => 0
  }

  function ReporterRank(p: ReporterPc): nat {
    match p
    case PIdle => 3
    case PAwaitClose => 2
    case PAwaitInit => 1
    case PFinished => 0
  }

  function CallRank(pc: CallPc): nat {
    match pc
    case LServer(_) => 6
    case LTrivial => 5
    case LClose => 5
    case LInit(_) => 4
    case LDispose => 3
    case LPublished => 2
    case LSettled => 0
  }

  function CallsRank(calls: seq<Call>): nat {
    if calls == [] then 0 else CallRank(calls[0].pc) + CallsRank(calls[1..])
  }

  /** How many continuations can still run before everything has settled, at most. */
  function Rank(s: State): nat {
    InitRank(s.boot.pc) + CloseRank(s.own.close, s.own.handlers) + WsRank(s.ws)
    + ReleaseRank(s.hand.tracked) + ReporterRank(s.rep.pc) + CallsRank(s.calls)
  }

  lemma {:induction false} CallsRankUpdate(calls: seq<Call>, i: nat, c: Call)
    requires i < |calls|
    ensures CallsRank(calls[i := c]) + CallRank(calls[i].pc) == CallsRank(calls) + CallRank(c.pc)
  {
    var after := calls[i := c];
    if i == 0 {
      assert after[1..] == calls[1..];
    } else {
      assert after[1..] == calls[1..][i - 1 := c];
      CallsRankUpdate(calls[1..], i - 1, c);
    }
  }

  // ---------------------------------------------------------------- every continuation is progress

  lemma StartupDescends(s: State, ok: bool)
    requires Inv(s) && InitEnabled(s)
    ensures Rank(InitNext(s, ok)) < Rank(s)
  {
    if s.boot.pc.IRejected? {
      CatchKeeps(s);
      assert CloseRank(CatchInit(s).own.close, s.own.handlers) <= CloseRank(s.own.close, s.own.handlers);
      assert CatchInit(s).own.handlers == s.own.handlers && CatchInit(s).ws == s.ws;
      assert ReporterRank(CatchInit(s).rep.pc) <= ReporterRank(s.rep.pc);
    } else if Adopting(s, ok) {
    } else {
      assert InitRank(InitNext(s, ok).boot.pc) < InitRank(s.boot.pc);
    }
  }

  lemma CloseDescends(s: State, ok: bool)
    requires Inv(s) && CloseEnabled(s)
    ensures Rank(CloseNext(s, ok)) < Rank(s)
  {
    if s.own.close.CScheduled? {
      assert JoinWs(s).own.close != CScheduled && WsRank(JoinWs(s).ws) <= WsRank(s.ws);
    } else if s.own.close.CRelease? {
      CloseReleaseDescends(s, ok);
    } else {
      TeardownDescends(s, ok);
    }
  }

  lemma CloseReleaseDescends(s: State, ok: bool)
    requires Inv(s) && CloseEnabled(s) && s.own.close.CRelease?
    ensures Rank(CloseNext(s, ok)) < Rank(s)
  {
    assert ReleaseRank(ReleaseNext(s.own.close.rel, ok)) < ReleaseRank(s.own.close.rel);
  }

  lemma TeardownDescends(s: State, ok: bool)
    requires Inv(s) && CloseEnabled(s) && !s.own.close.CScheduled? && !s.own.close.CRelease?
    ensures Rank(CloseNext(s, ok)) < Rank(s)
  {
    var s' := CloseNext(s, ok);
    assert CloseRank(s'.own.close, s'.own.handlers) < CloseRank(s.own.close, s.own.handlers);
  }

  lemma CallDescends(s: State, i: nat)
    requires Inv(s) && i < |s.calls| && CallEnabled(s, s.calls[i])
    ensures Rank(CallNext(s, i)) < Rank(s)
  {
    var s' := CallNext(s, i);
    assert CallOk(s, s.calls[i]);
    assert s'.calls == s.calls[i := s'.calls[i]];
    CallsRankUpdate(s.calls, i, s'.calls[i]);
    assert CallRank(s'.calls[i].pc) < CallRank(s.calls[i].pc);
    assert CloseRank(s'.own.close, s'.own.handlers) <= CloseRank(s.own.close, s.own.handlers);
    assert ReporterRank(s'.rep.pc) <= ReporterRank(s.rep.pc);
  }

  lemma StepDescends(s: State, e: Event)
    requires Inv(s) && Enabled(s, e) && IsInternal(e)
    ensures Rank(Apply(s, e)) < Rank(s)
  {
    match e {
      case InitStep(ok) => StartupDescends(s, ok);
      case CloseStep(ok) => CloseDescends(s, ok);
      case CallStep(i) => CallDescends(s, i);
      case TrackedStep(ok) => assert ReleaseRank(ReleaseNext(s.hand.tracked, ok)) < ReleaseRank(s.hand.tracked);
      case _ =>
    }
  }

  // ---------------------------------------------------------------- nothing left to run

  ghost predicate Stuck(s: State) {
    forall e :: IsInternal(e) ==> !Enabled(s, e)
  }

  /** Every promise the socket has handed out has settled. */
  predicate AllSettled(s: State) {
    && s.boot.pc.IDone?
    && (s.own.close.CIdle? || s.own.close.CSettled?)
    && (s.ws.WOpen? || s.ws.WClosed?)
    && !ReleaseInFlight(s.hand.tracked)
    && (s.rep.pc.PIdle? || s.rep.pc.PFinished?)
    && (forall i | 0 <= i < |s.calls| :: s.calls[i].pc.LSettled?)
  }

  /** An end handler awaits the async disposer, and startup awaits the close that awaits the handler. */
  predicate DisposalCycle(s: State) {
    && s.boot.pc.IJoin?
    && s.own.close.CHandler?
    && (exists i | 0 <= i < |s.calls| :: s.calls[i].kind == Dispose && s.calls[i].awaited && s.calls[i].pc == LDispose)
  }

  /** With startup and the close settled and nothing enabled, nothing at all is pending. */
  lemma StuckAfterClose(s: State)
    requires Inv(s) && Stuck(s) && s.boot.pc.IDone? && (s.own.close.CIdle? || s.own.close.CSettled?)
    ensures AllSettled(s)
  {
    assert !Enabled(s, WsStep(true)) && !Enabled(s, TrackedStep(true)) && !Enabled(s, ReporterStep);
    forall i | 0 <= i < |s.calls| ensures s.calls[i].pc.LSettled? {
      assert !Enabled(s, CallStep(i));
      assert CallOk(s, s.calls[i]);
    }
  }

  lemma StuckClose(s: State)
    requires Inv(s) && Stuck(s)
    ensures s.own.close.CIdle? || s.own.close.CSettled? || (s.own.close.CHandler? && !HandlerMayReturn(s))
  {
    assert !Enabled(s, CloseStep(true)) && !Enabled(s, WsStep(true)) && !Enabled(s, TrackedStep(true));
  }

  lemma StuckStartup(s: State)
    requires Inv(s) && Stuck(s)
    ensures s.boot.pc.IDone? || (s.boot.pc.IJoin? && !s.own.close.CSettled?)
  {
    assert !Enabled(s, InitStep(true)) && !Enabled(s, TrackedStep(true));
  }

  /**
   * The only way a reachable socket can stop with something pending is an end handler that
   * awaits the async disposer of a socket whose startup failed.
   */
  lemma StuckIsSettledOrDisposalCycle(s: State)
    requires Reachable(s) && Stuck(s)
    ensures AllSettled(s) || DisposalCycle(s)
  {
    ReachableKeeps(s);
    StuckClose(s);
    StuckStartup(s);
    if s.own.close.CHandler? {
      var i :| 0 <= i < |s.calls| && s.calls[i].awaited && !s.calls[i].pc.LSettled?;
      assert CallOk(s, s.calls[i]);
      assert !Enabled(s, CallStep(i));
    } else {
      StuckAfterClose(s);
    }
  }

  /** A disposal cycle lasts: whatever callers, timers and the socket do, the close never settles. */
  lemma DisposalCycleIsForever(s: State, e: Event)
    requires Inv(s) && DisposalCycle(s) && Enabled(s, e)
    ensures DisposalCycle(Apply(s, e))
  {
    var i :| 0 <= i < |s.calls| && s.calls[i].kind == Dispose && s.calls[i].awaited && s.calls[i].pc == LDispose;
    assert !HandlerMayReturn(s) && !CallEnabled(s, s.calls[i]);
    var s' := Apply(s, e);
    assert |s.calls| <= |s'.calls| && s'.calls[i] == s.calls[i];
    assert s'.boot == s.boot && s'.own.close == s.own.close;
  }

  /** And once only the cycle is left pending, no continuation of the socket ever runs again. */
  lemma DisposalCycleIsStuck(s: State)
    requires Inv(s) && DisposalCycle(s)
    requires !WsBusy(s.ws)
    requires forall i | 0 <= i < |s.calls| :: s.calls[i].pc.LSettled? || s.calls[i].pc.LDispose?
    ensures Stuck(s) && !AllSettled(s)
  {
    forall e | IsInternal(e) ensures !Enabled(s, e) {
      if e.CallStep? {
        CallsWaitInCycle(s, e.index);
      } else {
        OthersWaitInCycle(s, e);
      }
    }
  }

  lemma CallsWaitInCycle(s: State, i: nat)
    requires s.boot.pc.IJoin?
    requires forall i | 0 <= i < |s.calls| :: s.calls[i].pc.LSettled? || s.calls[i].pc.LDispose?
    ensures !Enabled(s, CallStep(i))
  {
    assert i < |s.calls| ==> s.calls[i].pc.LSettled? || s.calls[i].pc.LDispose?;
  }

  lemma OthersWaitInCycle(s: State, e: Event)
    requires Inv(s) && DisposalCycle(s) && !WsBusy(s.ws) && IsInternal(e) && !e.CallStep?
    ensures !Enabled(s, e)
  {
    assert !HandlerMayReturn(s);
  }

  ghost predicate Internal(events: seq<Event>) {
    forall i | 0 <= i < |events| :: IsInternal(events[i])
  }

  /** A run of continuations alone is no longer than the rank of the state it starts from. */
  lemma {:induction false} ContinuationsAreBounded(s: State, events: seq<Event>)
    requires Inv(s) && IsRun(s, events) && Internal(events)
    ensures |events| + Rank(Exec(s, events)) <= Rank(s)
    decreases |events|
  {
    if events != [] {
      assert IsInternal(events[0]);
      StepDescends(s, events[0]);
      StepKeeps(s, events[0]);
      assert Internal(events[1..]) by {
        forall i | 0 <= i < |events[1..]| ensures IsInternal(events[1..][i]) {
          assert events[1..][i] == events[i + 1];
        }
      }
      ContinuationsAreBounded(Apply(s, events[0]), events[1..]);
    }
  }

  /**
   * From any reachable state, however the scheduler picks among the continuations, it can pick at
   * most `Rank(s)` of them, and where it can pick no more everything has settled (the disposal
   * cycle aside): a claimed close has been published exactly once, every client is freed, every
   * `logout()` has claimed a close.
   */
  lemma EverythingSettles(s: State, events: seq<Event>)
    requires Reachable(s) && IsRun(s, events) && Internal(events)
    ensures |events| <= Rank(s)
    ensures var s' := Exec(s, events);
            Stuck(s') && !DisposalCycle(s') ==>
              && AllSettled(s')
              && (s'.rep.claimed ==> |s'.rep.log| == 1)
              && (IsClosing(s'.own.phase) && s'.boot.built ==> s'.hand.frees == 1)
  {
    ReachableKeeps(s);
    ContinuationsAreBounded(s, events);
    ReachableOn(s, events);
    var s' := Exec(s, events);
    ReachableKeeps(s');
    if Stuck(s') && !DisposalCycle(s') {
      StuckIsSettledOrDisposalCycle(s');
    }
  }
}

/** The two ways a caller can break the contract, each shown on runs and closed off exactly. */
module SocketMisuse {
  import opened Wrappers
  import opened ClientPhase
  import opened SocketMachine
  import opened SocketSafety
  import opened SocketTheorems
  import opened SocketProgress

  lemma ReachableStep(s: State, e: Event) returns (s': State)
    requires Reachable(s) && Enabled(s, e)
    ensures s' == Apply(s, e) && Reachable(s')
  {
    s' := Apply(s, e);
    ExecCons(s, e, []);
    ReachableOn(s, [e] + []);
  }

  /** Two store flushes, then the first end handler. */
  lemma FlushesThenHandler(s: State) returns (s': State)
    requires Reachable(s) && s.own.handlers > 0
    requires s.own == Own(Closing(None), CFlush(2), Some(true), false, s.own.handlers, false)
    ensures Reachable(s') && s'.own == Own(Closing(None), CHandler(0), Some(true), false, s.own.handlers, true)
    ensures s'.boot == s.boot && s'.ws == s.ws && s'.calls == s.calls
  {
    var s1 := ReachableStep(s, CloseStep(true));
    assert s1.own == s.own.(close := CFlush(1));
    s' := ReachableStep(s1, CloseStep(true));
  }

  /** Teardown without a client: ws.close() finds none, then the flushes and the end handlers. */
  lemma TeardownReachesHandler(s: State) returns (s': State)
    requires Reachable(s) && s.own.handlers > 0 && s.ws.WOpen?
    requires s.own == Own(Closing(None), CScheduled, None, false, s.own.handlers, false)
    ensures Reachable(s') && s'.own == Own(Closing(None), CHandler(0), Some(true), false, s.own.handlers, true)
    ensures s'.boot == s.boot && s'.ws.WClosed? && s'.calls == s.calls
  {
    var s1 := ReachableStep(s, CloseStep(true));
    assert s1 == s.(ws := WScheduled, own := s.own.(close := CWs));
    var s2 := ReachableStep(s1, WsStep(true));
    assert s2 == s1.(ws := WNoClient);
    var s3 := ReachableStep(s2, WsStep(true));
    assert s3 == s2.(ws := WClosed(true), own := s2.own.(joined := Some(true)));
    var s4 := ReachableStep(s3, CloseStep(true));
    assert s4 == s3.(own := s3.own.(close := CFlush(2)));
    s' := FlushesThenHandler(s4);
  }

  /** A startup that fails before there is a client reports, and joins the close it has caused. */
  lemma FailedStartupJoins(cfg: Config, handlers: nat) returns (s: State)
    ensures Reachable(s) && s.boot.pc.IJoin? && s.ws.WOpen? && s.calls == []
    ensures s.own == Own(Closing(None), CScheduled, None, false, handlers, false)
  {
    var s0 := Initial(cfg, handlers);
    assert Reachable(s0) by {
      assert IsRun(s0, []) && Exec(s0, []) == s0;
    }
    var s1 := ReachableStep(s0, InitStep(false));  // waitForAuthState rejects
    assert s1 == s0.(boot := s0.boot.(pc := IRejected));
    s := ReachableStep(s1, InitStep(true));        // the catch handler
  }

  /** The first of any number of handlers awaits the async disposer: nothing the socket can do settles it. */
  lemma AwaitedDisposalDeadlocks(cfg: Config, handlers: nat) returns (s: State)
    requires handlers > 0
    ensures Reachable(s) && DisposalCycle(s) && Stuck(s) && !AllSettled(s)
  {
    s := FailedStartupJoins(cfg, handlers);
    s := TeardownReachesHandler(s);
    s := HandlerAwaitsDisposal(s);
    ReachableKeeps(s);
    assert s.calls[0].pc.LDispose?;
    DisposalCycleIsStuck(s);
  }

  /** The disposer's `end()` short-circuits inside the handler; then it awaits `initPromise`. */
  lemma HandlerAwaitsDisposal(s: State) returns (s': State)
    requires Reachable(s) && s.own.close == CHandler(0) && s.own.runningEndHandlers && s.calls == []
    ensures Reachable(s') && s'.calls == [Call(Dispose, LDispose, false, true)]
    ensures s'.boot == s.boot && s'.own == s.own && s'.ws == s.ws
  {
    s' := ReachableStep(s, CallDispose(true));
    assert s'.calls == [Call(Dispose, LTrivial, false, true)];
    s' := ReachableStep(s', CallStep(0));
  }

  predicate PendingDisposal(c: Call) { c.kind == Dispose && c.awaited && !c.pc.LSettled? }

  /** An end handler awaits the async disposer, and startup has failed: the close never gets past the handler. */
  ghost predicate Trapped(s: State) {
    && (s.boot.pc.IRejected? || s.boot.pc.IJoin?)
    && s.own.close.CHandler?
    && exists i | 0 <= i < |s.calls| :: PendingDisposal(s.calls[i])
  }

  /** A trap holds whatever anyone does, and nothing is freed in it. */
  lemma TrapHolds(s: State, e: Event)
    requires Inv(s) && Trapped(s) && Enabled(s, e)
    ensures Trapped(Apply(s, e)) && Apply(s, e).hand == s.hand
  {
    var i :| 0 <= i < |s.calls| && PendingDisposal(s.calls[i]);
    assert CallOk(s, s.calls[i]);
    assert !HandlerMayReturn(s);
    var s' := Apply(s, e);
    if s.boot.pc.IRejected? && e.InitStep? {
      CatchKeeps(s);
    }
    assert |s.calls| <= |s'.calls| && PendingDisposal(s'.calls[i]);
  }

  lemma {:induction false} TrapIsForever(s: State, events: seq<Event>)
    requires Inv(s) && Trapped(s) && IsRun(s, events)
    ensures Exec(s, events).hand == s.hand
    decreases |events|
  {
    if events != [] {
      TrapHolds(s, events[0]);
      StepKeeps(s, events[0]);
      TrapIsForever(Apply(s, events[0]), events[1..]);
    }
  }

  /** The client is on its way to `free()` while the facade has a disconnect of its own in flight. */
  predicate Doomed(s: State) {
    && Inv(s) && s.ws.WDisconnecting?
    && (s.own.close.CRelease? || (PastWsClose(s) && Peek(s.own.phase).Some?))
    && (s.own.close.CWs? ==> s.own.joined.Some?)
    && forall i | 0 <= i < |s.calls| :: PendingDisposal(s.calls[i]) ==> s.boot.pc.IDone?
  }

  lemma ClosingInDoom(s: State)
    requires Doomed(s) && CloseEnabled(s)
    ensures var s' := CloseNext(s, true); Doomed(s') || s'.hand.freedBusy
  {
    CloseKeeps(s, true);
    match s.own.close {
      case CFlush(_) =>
      case CHandler(_) =>
      case CRelease(_) =>
      case _ =>
    }
  }

  lemma HandlerInDoom(s: State) returns (i: nat)
    requires Doomed(s) && !CloseEnabled(s)
    ensures i < |s.calls| && CallEnabled(s, s.calls[i]) && Doomed(CallNext(s, i))
  {
    i :| 0 <= i < |s.calls| && s.calls[i].awaited && !s.calls[i].pc.LSettled?;
    assert CallOk(s, s.calls[i]);
    CallKeeps(s, i);
    var s' := CallNext(s, i);
    assert s'.calls == s.calls[i := s'.calls[i]] && s'.calls[i].kind == s.calls[i].kind;
    assert s'.own == s.own && s'.ws == s.ws;
  }

  lemma {:induction false} DoomReachesFree(s: State) returns (events: seq<Event>)
    requires Doomed(s)
    ensures IsRun(s, events) && Exec(s, events).hand.freedBusy
    decreases Rank(s)
  {
    var e := CloseStep(true);
    if CloseEnabled(s) {
      ClosingInDoom(s);
    } else {
      var i := HandlerInDoom(s);
      e := CallStep(i);
    }
    StepDescends(s, e);
    var s' := Apply(s, e);
    var rest := [];
    if !s'.hand.freedBusy {
      rest := DoomReachesFree(s');
    }
    ExecCons(s, e, rest);
    events := [e] + rest;
  }

  /** With the client still in the owner's hands, a startup that has not failed is done by its next step. */
  lemma StartupSettles(s: State) returns (events: seq<Event>)
    requires Inv(s) && PastWsClose(s) && Peek(s.own.phase).Some?
    ensures IsRun(s, events)
    ensures var s' := Exec(s, events);
            && Inv(s') && s'.own == s.own && s'.ws == s.ws && s'.calls == s.calls
            && (s'.boot.pc.IDone? || (s'.boot.pc == s.boot.pc && (s.boot.pc.IRejected? || s.boot.pc.IJoin?)))
  {
    events := [];
    if Wiring(s.boot.pc) {
      StepKeeps(s, InitStep(true));
      ExecCons(s, InitStep(true), []);
      events := [InitStep(true)] + [];
    }
  }

  /** A facade with a client behind it, closed again: its disconnect is in flight two steps later. */
  lemma FacadeDisconnects(s: State) returns (events: seq<Event>)
    requires Inv(s) && s.ws.WOpen? && Peek(s.own.phase).Some? && (s.own.close.CWs? ==> s.own.joined.Some?)
    ensures IsRun(s, events) && Exec(s, events) == s.(ws := WDisconnecting) && Inv(s.(ws := WDisconnecting))
  {
    StepKeeps(s, CallWsClose);
    var s1 := Apply(s, CallWsClose);
    StepKeeps(s1, WsStep(true));
    ExecCons(s1, WsStep(true), []);
    ExecCons(s, CallWsClose, [WsStep(true)] + []);
    events := [CallWsClose] + ([WsStep(true)] + []);
  }

  ghost predicate FreesUnderDisconnect(s: State, events: seq<Event>) {
    IsRun(s, events) && events != [] && events[0] == CallWsConnect && Exec(s, events).hand.freedBusy
  }

  lemma ReopenedFacadeDooms(s: State) returns (events: seq<Event>)
    requires Inv(s) && Reopens(s, CallWsConnect) && !Trapped(s)
    ensures FreesUnderDisconnect(s, events)
  {
    StepKeeps(s, CallWsConnect);
    var s1 := Apply(s, CallWsConnect);
    var startup := StartupSettles(s1);
    var s2 := Exec(s1, startup);
    var facade := FacadeDisconnects(s2);
    var s3 := Exec(s2, facade);
    forall i | 0 <= i < |s3.calls| && PendingDisposal(s3.calls[i])
      ensures s3.boot.pc.IDone?
    {
      assert s3.calls[i] == s.calls[i] && CallOk(s, s.calls[i]);
    }
    var rest := DoomReachesFree(s3);
    ExecAppend(s2, facade, rest);
    ExecAppend(s1, startup, facade + rest);
    ExecCons(s, CallWsConnect, startup + (facade + rest));
    events := [CallWsConnect] + (startup + (facade + rest));
  }

  /**
   * `Reopens` is the line, with one exception: a `ws.connect()` that reopens the facade behind its teardown
   * can be followed by a run in which `free()` meets a running `disconnect()`, exactly when it has met one
   * already or the close is not trapped behind an awaited disposal.
   */
  lemma ReopeningLeadsToFreeUnderDisconnect(s: State)
    requires Reachable(s) && Reopens(s, CallWsConnect)
    ensures (exists events :: FreesUnderDisconnect(s, events)) <==> s.hand.freedBusy || !Trapped(s)
  {
    ReachableKeeps(s);
    if Trapped(s) {
      forall events | FreesUnderDisconnect(s, events)
        ensures s.hand.freedBusy
      {
        TrapIsForever(s, events);
      }
      ExecCons(s, CallWsConnect, []);
      assert Exec(s, [CallWsConnect] + []).hand == s.hand;
      assert s.hand.freedBusy ==> FreesUnderDisconnect(s, [CallWsConnect] + []);
    } else {
      var events := ReopenedFacadeDooms(s);
      assert FreesUnderDisconnect(s, events);
    }
  }
}
