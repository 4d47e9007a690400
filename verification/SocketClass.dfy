/**
 * The socket in the form of src/Socket/core.ts: closure variables that each continuation updates in
 * place. Every method is one event of the step machine, and is tied to it.
 */
module SocketClass {
  import opened Wrappers
  import opened ClientPhase
  import opened SocketMachine
  import opened SocketSafety
  import opened SocketTheorems
  import opened SocketProgress

  class Socket {
    const cfg: Config
    // init()
    var initPc: InitPc
    var initError: bool
    var initialized: bool
    var ran: bool          // recorded: run() was called
    var built: bool        // recorded: there is a client
    // the owner, its teardown and the end handlers
    var phase: Phase
    var close: ClosePc
    var joined: Option<bool>
    var firstFlushError: bool
    var socketEndHandlers: nat
    var runningEndHandlers: bool
    // the facade and the release that adopt or discard started
    var ws: WsPc
    var tracked: ReleasePc
    var frees: nat         // recorded: calls of client.free()
    var freedBusy: bool    // recorded: one of them under a disconnect()
    // the reporter
    var claimed: bool
    var reporter: ReporterPc
    var watchdog: bool
    var published: seq<Publication>
    // end(), logout() and disposal in flight
    var calls: seq<Call>

    ghost function View(): State
      reads this
    {
      State(cfg, Boot(initPc, initError, initialized, ran, built),
            Own(phase, close, joined, firstFlushError, socketEndHandlers, runningEndHandlers),
            ws, Hand(tracked, frees, freedBusy), Reporter(claimed, reporter, watchdog, published), calls)
    }

    constructor (cfg: Config, handlers: nat)
      ensures View() == Initial(cfg, handlers) && Inv(View())
    {
      this.cfg := cfg;
      initPc, initError, initialized, ran, built := IAuth, false, false, false, false;
      phase, close, joined, firstFlushError := Starting, CIdle, None, false;
      socketEndHandlers, runningEndHandlers := handlers, false;
      ws, tracked, frees, freedBusy := WOpen, RIdle, 0, false;
      claimed, reporter, watchdog, published, calls := false, PIdle, false, [], [];
    }

    // -------------------------------------------------------------- shared stretches of code

    method OwnerClose()
      modifies `phase, `close
      ensures View() == old(View()).(own := DoClose(old(View()).own))
    {
      if !IsClosing(phase) {
        phase, close := Closing(Peek(phase)), CScheduled;
      }
    }

    method ReportTerminalClose()
      modifies `phase, `close, `claimed, `reporter, `watchdog
      ensures View() == ReportAfter(old(View()))
    {
      if claimed {
        return;
      }
      claimed, reporter, watchdog := true, PAwaitClose, true;
      OwnerClose();
    }

    /** The publish of the one claim, guarded by its `done`. */
    method Publish(cause: Cause)
      modifies `published
      ensures published == Logged(old(published), Snapshot(old(View()), cause))
    {
      if published == [] {
        published := [Publication(cause, close.CSettled?, initPc.IDone?, !built || frees == 1)];
      }
    }

    /** One await of the `release` callback is over; the last one calls `free()`. */
    method Advance(r: ReleasePc, ok: bool, busy: bool) returns (next: ReleasePc)
      modifies `frees, `freedBusy
      ensures next == ReleaseNext(r, ok)
      ensures Hand(tracked, frees, freedBusy) == Freed(Hand(tracked, old(frees), old(freedBusy)), next, busy)
    {
      next := r;
      if r.RDisconnect? {
        next := if ok then RTail(4) else RDone;
      } else if r.RTail? {
        next := if r.left > 1 then RTail(r.left - 1) else RDone;
      }
      if next.RDone? {
        frees, freedBusy := frees + 1, freedBusy || busy;
      }
    }

    // -------------------------------------------------------------- callers and timers

    method End(awaited: bool)
      requires Inv(View()) && Enabled(View(), CallEnd(awaited))
      modifies this
      ensures Inv(View()) && View() == Apply(old(View()), CallEnd(awaited))
    {
      StepKeeps(View(), CallEnd(awaited));
      hide Inv;
      if runningEndHandlers {
        calls := calls + [Call(CallKind.End, LSettled, false, awaited)];
        return;
      }
      OwnerClose();
      calls := calls + [Call(CallKind.End, LClose, false, awaited)];
    }

    method AsyncDispose(awaited: bool)
      requires Inv(View()) && Enabled(View(), CallDispose(awaited))
      modifies this
      ensures Inv(View()) && View() == Apply(old(View()), CallDispose(awaited))
    {
      StepKeeps(View(), CallDispose(awaited));
      hide Inv;
      var pc := if runningEndHandlers then LTrivial else LClose;
      if !runningEndHandlers {
        OwnerClose();
      }
      calls := calls + [Call(Dispose, pc, false, awaited)];
    }

    /** `logout()` as far as its first await: the server's answer if there is a client, else `end`. */
    method Logout(awaited: bool)
      requires Inv(View()) && Enabled(View(), CallLogout(awaited))
      modifies this
      ensures Inv(View()) && View() == Apply(old(View()), CallLogout(awaited))
    {
      StepKeeps(View(), CallLogout(awaited));
      hide Inv;
      var reportedBefore := claimed;
      if Peek(phase).Some? {
        calls := calls + [Call(CallKind.Logout, LServer(reportedBefore), false, awaited)];
        return;
      }
      var pc := if runningEndHandlers then LTrivial else LClose;
      if !runningEndHandlers {
        OwnerClose();
      }
      calls := calls + [Call(CallKind.Logout, pc, !reportedBefore, awaited)];
    }

    method WsClose()
      requires Inv(View())
      modifies this
      ensures Inv(View()) && View() == Apply(old(View()), CallWsClose)
    {
      StepKeeps(View(), CallWsClose);
      hide Inv;
      if ws.WOpen? {
        ws := WScheduled;
      }
    }

    method WsConnect()
      requires Inv(View())
      modifies this
      ensures Inv(View()) && View() == Apply(old(View()), CallWsConnect)
    {
      StepKeeps(View(), CallWsConnect);
      hide Inv;
      if Peek(phase).None? || WsBusy(ws) {
        return;
      }
      ws := WOpen;
    }

    method RegisterSocketEndHandler()
      requires Inv(View())
      modifies this
      ensures Inv(View()) && View() == Apply(old(View()), RegisterHandler)
    {
      StepKeeps(View(), RegisterHandler);
      hide Inv;
      socketEndHandlers := socketEndHandlers + 1;
    }

    method OnTerminalClose()
      requires Inv(View())
      modifies this
      ensures Inv(View()) && View() == Apply(old(View()), TerminalEvent)
    {
      StepKeeps(View(), TerminalEvent);
      hide Inv;
      ReportTerminalClose();
    }

    /** The observer of `waitForRunCompletion()`, either way it settles. */
    method OnRunCompletion()
      requires Inv(View()) && Enabled(View(), RunCompleted)
      modifies this
      ensures Inv(View()) && View() == Apply(old(View()), RunCompleted)
    {
      StepKeeps(View(), RunCompleted);
      hide Inv;
      if IsClosing(phase) || Peek(phase).None? {
        return;
      }
      ReportTerminalClose();
    }

    method OnWatchdog()
      requires Inv(View()) && Enabled(View(), WatchdogFires)
      modifies this
      ensures Inv(View()) && View() == Apply(old(View()), WatchdogFires)
    {
      StepKeeps(View(), WatchdogFires);
      hide Inv;
      Publish(Watchdog);
      watchdog := false;
    }

    // -------------------------------------------------------------- init()

    method Adopt()
      modifies `initPc, `phase, `tracked, `built
      ensures View() == AdoptCreated(old(View()))
    {
      built := true;
      if !phase.Starting? {
        tracked, initPc := RDisconnect, ISettle;
        return;
      }
      phase := Running(HANDLE);
      initPc := if cfg.pushName then IPushName else IProps;
    }

    method Discard()
      modifies `initPc, `phase, `tracked
      ensures View() == DiscardFromInit(old(View()))
    {
      if IsClosing(phase) {
        initPc := IJoin;
      } else if phase.Running? {
        phase, tracked, initPc := Starting, RDisconnect, IDiscard;
      } else {
        initPc := IDone;
      }
    }

    /** The catch handler of `initPromise`. */
    method CatchInitError()
      modifies `initPc, `initError, `phase, `close, `tracked, `claimed, `reporter, `watchdog
      ensures View() == CatchInit(old(View()))
    {
      if !IsClosing(phase) {
        initError := true;
        ReportTerminalClose();
      }
      Discard();
    }

    method Run()
      modifies `initPc, `ran, `initialized
      ensures ran && initialized && initPc == IDone
    {
      ran, initialized, initPc := true, true, IDone;
    }

    /** The next stretch of `init()`, after the await it stands at came out as `ok`. */
    method ContinueInit(ok: bool)
      requires Inv(View()) && Enabled(View(), InitStep(ok))
      modifies this
      ensures Inv(View()) && View() == Apply(old(View()), InitStep(ok))
    {
      StepKeeps(View(), InitStep(ok));
      hide Inv;
      InitStretch(ok);
    }

    method InitStretch(ok: bool)
      requires InitEnabled(View())
      modifies this
      ensures View() == InitNext(old(View()), ok)
    {
      if initPc.IRejected? {
        CatchInitError();
      } else if initPc.IRefusedJid? {
        Adopt();
      } else if initPc.ISettle? || initPc.IDiscard? || initPc.IJoin? {
        initPc := IDone;
      } else if !ok {
        initPc := IRejected;
      } else {
        WiringStretch();
      }
    }

    method WiringStretch()
      requires BeforeClient(initPc) || Wiring(initPc)
      modifies `initPc, `phase, `tracked, `built, `ran, `initialized
      ensures View() == if old(initPc).ICreate? && !IsClosing(old(phase)) then AdoptCreated(old(View()))
                        else old(View()).(boot := Proceed(cfg, old(View()).boot, IsClosing(old(phase))))
    {
      if initPc.ICreate? && !IsClosing(phase) {
        Adopt();
      } else {
        ProceedStretch();
      }
    }

    method ProceedStretch()
      requires BeforeClient(initPc) || Wiring(initPc)
      modifies `initPc, `built, `ran, `initialized
      ensures View().boot == Proceed(cfg, old(View()).boot, IsClosing(phase))
    {
      if initPc.IAuth? {
        initPc := if cfg.legacyStore then IWrap else ICreate;
      } else if initPc.IWrap? {
        initPc := ICreate;
      } else if initPc.ICreate? {
        built, initPc := true, IRefusedJid;
      } else if IsClosing(phase) {
        initPc := IDone;
      } else if initPc.IPushName? {
        initPc := IProps;
      } else if initPc.IProps? {
        initPc := IIdentity;
      } else if initPc.IIdentity? && cfg.android {
        initPc := IProfile;
      } else {
        Run();
      }
    }

    // -------------------------------------------------------------- runClose, with its teardown

    method ContinueClose(ok: bool)
      requires Inv(View()) && Enabled(View(), CloseStep(ok))
      modifies this
      ensures Inv(View()) && View() == Apply(old(View()), CloseStep(ok))
    {
      StepKeeps(View(), CloseStep(ok));
      hide Inv;
      CloseStretch(ok);
    }

    method CloseStretch(ok: bool)
      requires CloseEnabled(View())
      modifies this
      ensures View() == CloseNext(old(View()), ok)
    {
      if close.CScheduled? {
        JoinWsClose();
      } else if close.CRelease? {
        ReleaseStretch(ok);
      } else {
        TeardownStretch(ok);
      }
    }

    method ReleaseStretch(ok: bool)
      requires close.CRelease?
      modifies `close, `frees, `freedBusy
      ensures View() == CloseReleaseNext(old(View()), ok)
    {
      hide ReleaseNext, DisconnectRunning, Drained, ReleaseInFlight;
      var busy := DisconnectRunning(ws, CDrain, tracked);
      var next := Advance(close.rel, ok, busy);
      if next.RDone? {
        Drain();
      } else {
        close := CRelease(next);
      }
    }

    method JoinWsClose()
      modifies `ws, `close, `joined
      ensures View() == JoinWs(old(View()))
    {
      joined := if ws.WClosed? then Some(ws.ok) else None;
      if ws.WOpen? {
        ws := WScheduled;
      }
      close := CWs;
    }

    /** `drainReleases`, and then the promise of `close()` settles as teardown did. */
    method Drain()
      modifies `close
      ensures close == Drained(firstFlushError, tracked)
    {
      close := if ReleaseInFlight(tracked) then CDrain else CSettled(!firstFlushError);
    }

    /** The `finally` of runClose: closed, then the captured client is released. */
    method LeaveTeardown()
      modifies `phase, `close, `runningEndHandlers
      ensures View().own == FinishTeardown(old(View()).own, tracked)
      ensures View() == old(View()).(own := View().own)
    {
      var client := Peek(phase);
      phase, runningEndHandlers := Closed, false;
      if client.Some? {
        close := CRelease(RDisconnect);
      } else {
        Drain();
      }
    }

    method AfterTransport()
      modifies `close
      ensures close == AfterWs(View().own)
    {
      close := if Peek(phase).Some? then CBarrier(2) else CFlush(2);
    }

    method TeardownStretch(ok: bool)
      requires CloseEnabled(View()) && !close.CScheduled? && !close.CRelease?
      modifies `phase, `close, `firstFlushError, `runningEndHandlers
      ensures View() == old(View()).(own := TeardownNext(old(View()).own, ok, tracked))
    {
      if close.CWs? && !joined.value && Peek(phase).Some? {
        close := CFallback;
      } else if close.CWs? || close.CFallback? {
        AfterTransport();
      } else if close.CBarrier? {
        close := if close.left > 1 then CBarrier(close.left - 1) else CFlush(2);
      } else if close.CFlush? {
        firstFlushError := firstFlushError || !ok;
        if close.left > 1 {
          close := CFlush(close.left - 1);
        } else if socketEndHandlers > 0 {
          close, runningEndHandlers := CHandler(0), true;
        } else {
          LeaveTeardown();
        }
      } else if close.CHandler? {
        if close.index + 1 < socketEndHandlers {
          close := CHandler(close.index + 1);
        } else {
          LeaveTeardown();
        }
      } else {
        Drain();
      }
    }

    // -------------------------------------------------------------- facade, releases, reporter, calls

    method ContinueWs(ok: bool)
      requires Inv(View()) && Enabled(View(), WsStep(ok))
      modifies this
      ensures Inv(View()) && View() == Apply(old(View()), WsStep(ok))
    {
      StepKeeps(View(), WsStep(ok));
      hide Inv;
      WsStretch(ok);
    }

    method WsStretch(ok: bool)
      requires WsBusy(ws)
      modifies `ws, `joined
      ensures View() == WsNext(old(View()), ok)
    {
      if ws.WScheduled? {
        ws := if Peek(phase).Some? then WDisconnecting else WNoClient;
        return;
      }
      var outcome := ok || !ws.WDisconnecting?;
      ws := WClosed(outcome);
      if close.CWs? && joined.None? {
        joined := Some(outcome);
      }
    }

    method ContinueTracked(ok: bool)
      requires Inv(View()) && Enabled(View(), TrackedStep(ok))
      modifies this
      ensures Inv(View()) && View() == Apply(old(View()), TrackedStep(ok))
    {
      StepKeeps(View(), TrackedStep(ok));
      hide Inv;
      TrackedStretch(ok);
    }

    method TrackedStretch(ok: bool)
      modifies `tracked, `frees, `freedBusy
      ensures View() == TrackedNext(old(View()), ok)
    {
      var busy := DisconnectRunning(ws, close, RDone);
      tracked := Advance(tracked, ok, busy);
    }

    method ContinueReporter()
      requires Inv(View()) && Enabled(View(), ReporterStep)
      modifies this
      ensures Inv(View()) && View() == Apply(old(View()), ReporterStep)
    {
      StepKeeps(View(), ReporterStep);
      hide Inv;
      if reporter.PAwaitClose? {
        reporter := PAwaitInit;
        return;
      }
      Publish(AfterTeardown);
      reporter, watchdog := PFinished, false;
    }

    /** The code of `end()`, `logout()` and the disposer after the await they stand at. */
    method ContinueCall(i: nat)
      requires Inv(View()) && Enabled(View(), CallStep(i))
      modifies this
      ensures Inv(View()) && View() == Apply(old(View()), CallStep(i))
    {
      StepKeeps(View(), CallStep(i));
      hide Inv;
      CallStretch(i);
    }

    method CallStretch(i: nat)
      requires i < |calls| && CallEnabled(View(), calls[i])
      modifies this
      ensures View() == CallNext(old(View()), i)
    {
      var c := calls[i];
      if c.pc.LServer? {
        var fallback := !c.pc.reportedBefore && !claimed;
        var pc := if runningEndHandlers then LTrivial else LClose;
        if !runningEndHandlers {
          OwnerClose();
        }
        calls := calls[i := c.(pc := pc, fallback := fallback)];
      } else if c.pc.LTrivial? {
        ReturnFromEnd(i, true, true);
      } else if c.pc.LClose? {
        calls := calls[i := c.(pc := LInit(close.ok))];
      } else if c.pc.LInit? {
        ReturnFromEnd(i, c.pc.ok, false);
      } else {
        calls := calls[i := c.(pc := LSettled)];
      }
    }

    /** `reportNow`. */
    method PublishNow(cause: Cause)
      requires !claimed
      modifies `claimed, `reporter, `published
      ensures View() == ReportNow(old(View()), cause)
    {
      Publish(cause);
      claimed, reporter := true, PFinished;
    }

    method ReturnFromEnd(i: nat, ok: bool, shortCircuit: bool)
      requires i < |calls|
      modifies `claimed, `reporter, `published, `calls
      ensures View() == AfterEnd(old(View()), i, ok, shortCircuit)
    {
      hide Logged, Snapshot;
      var c := calls[i];
      if c.kind == CallKind.Logout && c.fallback && !claimed {
        PublishNow(Fallback(shortCircuit));
      }
      var pc := match c.kind
        case End => LSettled
        case Dispose => LDispose
        case Logout => if !ok || runningEndHandlers then LSettled else LPublished;
      calls := calls[i := c.(pc := pc)];
    }

    // -------------------------------------------------------------- whole lives

    method Perform(e: Event)
      requires Inv(View()) && Enabled(View(), e)
      modifies this
      ensures Inv(View()) && View() == Apply(old(View()), e)
    {
      match e
      case CallEnd(awaited) => End(awaited);
      case CallDispose(awaited) => AsyncDispose(awaited);
      case CallLogout(awaited) => Logout(awaited);
      case CallWsClose => WsClose();
      case CallWsConnect => WsConnect();
      case RegisterHandler => RegisterSocketEndHandler();
      case TerminalEvent => OnTerminalClose();
      case RunCompleted => OnRunCompletion();
      case WatchdogFires => OnWatchdog();
      case InitStep(ok) => ContinueInit(ok);
      case CloseStep(ok) => ContinueClose(ok);
      case WsStep(ok) => ContinueWs(ok);
      case TrackedStep(ok) => ContinueTracked(ok);
      case ReporterStep => ContinueReporter();
      case CallStep(i) => ContinueCall(i);
    }

    /**
     * The object driven through any run, from any state a run can bring it to. It never publishes twice, nor
     * takes a publication back; it frees its client once at most, and not under a disconnect unless a facade
     * was reopened; a `logout()` that is over has claimed a close. Where nothing is left to run, the disposal
     * cycle aside, the claimed close is out and the client free.
     */
    method RunAll(events: seq<Event>)
      requires Reachable(View()) && IsRun(View(), events)
      modifies this
      ensures Reachable(View()) && View() == Exec(old(View()), events)
      ensures |published| <= 1 && (old(published) != [] ==> published == old(published))
      ensures frees <= 1 && (Peek(phase).Some? ==> frees == 0)
      ensures old(WsOk(View())) && NeverReopens(old(View()), events) ==> !freedBusy
      ensures forall i :: 0 <= i < |calls| && calls[i].kind == CallKind.Logout && calls[i].pc.LSettled? ==> claimed
      ensures Stuck(View()) && !DisposalCycle(View()) ==>
                (claimed ==> |published| == 1) && (IsClosing(phase) && built ==> frees == 1)
    {
      ghost var start := View();
      ReachableKeeps(start);
      var i := 0;
      while i < |events|
        invariant i <= |events| && Inv(View()) && IsRun(View(), events[i..])
        invariant Exec(View(), events[i..]) == Exec(start, events)
      {
        assert events[i..][0] == events[i] && events[i..][1..] == events[i + 1..];
        Perform(events[i]);
        i := i + 1;
      }
      LifeIsSafe(start, events, View());
    }

    // -------------------------------------------------------------- getClient()

    /** The decision made at once: a client only when startup is over, run() called and no close begun. */
    method GetClient() returns (ready: Option<Client>)
      requires Inv(View())
      ensures ready.Some? <==> !initError && !IsClosing(phase) && initialized
      ensures ready.Some? ==> ran && phase == Running(ready.value)
    {
      if initError || IsClosing(phase) || !initialized {
        return None;
      }
      ready := Peek(phase);
    }

    /** The decision made once `initPromise` has settled: a live socket always has a client by then. */
    method GetBuiltClient() returns (built: Option<Client>)
      requires Inv(View()) && initPc.IDone?
      ensures built.Some? <==> !IsClosing(phase)
      ensures built.Some? ==> ran && phase == Running(built.value)
    {
      if initError || IsClosing(phase) {
        return None;
      }
      built := Peek(phase);
    }
  }

  /** What the machine promises at the end of a run from a state it can be in. */
  lemma LifeIsSafe(s: State, events: seq<Event>, s': State)
    requires Reachable(s) && IsRun(s, events) && s' == Exec(s, events)
    ensures Reachable(s')
    ensures |s'.rep.log| <= 1 && (s.rep.log != [] ==> s'.rep.log == s.rep.log)
    ensures s'.hand.frees <= 1 && (Peek(s'.own.phase).Some? ==> s'.hand.frees == 0)
    ensures WsOk(s) && NeverReopens(s, events) ==> !s'.hand.freedBusy
    ensures forall i :: 0 <= i < |s'.calls| && s'.calls[i].kind == Logout && s'.calls[i].pc.LSettled? ==> s'.rep.claimed
    ensures Stuck(s') && !DisposalCycle(s') ==>
              (s'.rep.claimed ==> |s'.rep.log| == 1)
                && (IsClosing(s'.own.phase) && s'.boot.built ==> s'.hand.frees == 1)
  {
    ReachableKeeps(s);
    ReachableOn(s, events);
    OneCloseAfterTeardown(s');
    ClientReleasedOnce(s');
    if s.rep.log != [] {
      PublicationIsFinal(s, events);
    }
    if WsOk(s) && NeverReopens(s, events) {
      RunIsSafe(s, events);
    }
    forall i | 0 <= i < |s'.calls| && s'.calls[i].kind == Logout && s'.calls[i].pc.LSettled?
      ensures s'.rep.claimed
    {
      SettledLogoutIsClaimed(s', i);
    }
    assert IsRun(s', []) && Exec(s', []) == s' && Internal([]);
    EverythingSettles(s', []);
  }
}
