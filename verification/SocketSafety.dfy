/** What every step of the socket machine keeps, and what follows for every run. */
module SocketSafety {
  import opened Wrappers
  import opened ClientPhase
  import opened SocketMachine

  predicate Teardown(c: ClosePc) {
    c.CScheduled? || c.CWs? || c.CFallback? || c.CBarrier? || c.CFlush? || c.CHandler?
  }

  predicate Wiring(pc: InitPc) {
    pc.IPushName? || pc.IProps? || pc.IIdentity? || pc.IProfile?
  }

  predicate BeforeClient(pc: InitPc) {
    pc.IAuth? || pc.IWrap? || pc.ICreate?
  }

  predicate InRange(r: ReleasePc) {
    r.RTail? ==> 1 <= r.left <= 4
  }

  /** The owner's phase and the progress of its close agree; a teardown joins a pending ws close. */
  predicate CloseOk(s: State) {
    && (s.own.phase.Closing? <==> Teardown(s.own.close))
    && (s.own.phase.Closed? <==> s.own.close.CRelease? || s.own.close.CDrain? || s.own.close.CSettled?)
    && (s.own.close.CRelease? ==> ReleaseInFlight(s.own.close.rel) && InRange(s.own.close.rel))
    && (s.own.close.CFallback? || s.own.close.CBarrier? ==> Peek(s.own.phase).Some?)
    && (s.own.close.CBarrier? ==> 1 <= s.own.close.left <= 2)
    && (s.own.close.CFlush? ==> 1 <= s.own.close.left <= 2)
    && (s.own.close.CHandler? ==> s.own.close.index < s.own.handlers)
    && (s.own.close.CWs? && s.own.joined.None? ==> WsBusy(s.ws))
    && (s.own.runningEndHandlers <==> s.own.close.CHandler?)
    && InRange(s.hand.tracked)
  }

  function One(b: bool): nat { if b then 1 else 0 }

  /** The hands the client can be in; exactly one from the moment it is built. */
  function Hands(s: State): nat {
    One(Peek(s.own.phase).Some?) + One(s.own.close.CRelease?) + One(ReleaseInFlight(s.hand.tracked)) + s.hand.frees
    + One(s.boot.pc.IRefusedJid?)
  }

  predicate ClientOk(s: State) {
    && Hands(s) == One(s.boot.built)
    && (s.hand.tracked.RDone? ==> s.hand.frees == 1)
  }

  predicate InitOk(s: State) {
    && (BeforeClient(s.boot.pc) ==> !s.boot.built)
    && (Wiring(s.boot.pc) ==> s.boot.built && s.hand.tracked.RIdle?)
    && (s.boot.pc.IRefusedJid? || s.boot.pc.ISettle? || s.boot.pc.IJoin? ==> IsClosing(s.own.phase))
    && (s.boot.pc.IRefusedJid? ==> s.hand.tracked.RIdle?)
    && (s.boot.pc.ISettle? ==> !s.hand.tracked.RIdle?)
    && !s.boot.pc.IDiscard?
    && (ReleaseInFlight(s.hand.tracked) ==> s.boot.pc.ISettle?)
    && (s.own.phase.Running? ==> Wiring(s.boot.pc) || s.boot.pc.IRejected? || s.boot.pc.IDone?)
    && (!IsClosing(s.own.phase) && (Wiring(s.boot.pc) || s.boot.pc.IDone?) ==> s.own.phase.Running?)
    && (!IsClosing(s.own.phase) && s.boot.pc.IDone? ==> s.boot.ran)
    && (s.boot.error ==> IsClosing(s.own.phase))
    && (s.boot.initialized ==> s.boot.ran)
    && (s.boot.ran ==> s.boot.pc.IDone? && s.boot.built)
  }

  /** A close published by the reporter's own path, or by a fallback that awaited `end()`, is late enough. */
  predicate InOrder(p: Publication) {
    p.cause == Watchdog || p.cause == Fallback(true) || (p.closeSettled && p.initSettled && p.clientReleased)
  }

  predicate ReporterOk(s: State) {
    && (s.rep.claimed ==> IsClosing(s.own.phase))
    && (s.rep.claimed <==> !s.rep.pc.PIdle?)
    && |s.rep.log| <= 1
    && (s.rep.pc.PIdle? ==> s.rep.log == [] && !s.rep.watchdog)
    && (s.rep.pc.PFinished? ==> |s.rep.log| == 1 && !s.rep.watchdog)
    && (s.rep.pc.PAwaitClose? || s.rep.pc.PAwaitInit? ==> (s.rep.watchdog <==> s.rep.log == []))
    && (s.rep.pc.PAwaitInit? ==> s.own.close.CSettled?)
    && (s.rep.log != [] ==> InOrder(s.rep.log[0]))
  }

  predicate CallOk(s: State, c: Call) {
    && (c.awaited && !c.pc.LSettled? ==> s.own.close.CHandler?)
    && (c.awaited && !c.pc.LSettled? && c.kind != Dispose ==> c.pc.LServer? || c.pc.LTrivial?)
    && (c.awaited && c.kind == Dispose ==> c.pc.LTrivial? || c.pc.LDispose? || c.pc.LSettled?)
    && (c.kind != Logout ==> !c.pc.LServer? && !c.pc.LPublished?)
    && (c.kind == End ==> !c.pc.LTrivial?)
    && (c.kind != Dispose ==> !c.pc.LDispose?)
    && (c.pc.LTrivial? || c.pc.LClose? || c.pc.LInit? ==> IsClosing(s.own.phase))
    && (c.pc.LInit? ==> s.own.close.CSettled?)
    && (c.pc.LServer? && c.pc.reportedBefore ==> s.rep.claimed)
    && (c.kind == Logout && (c.pc.LSettled? || c.pc.LPublished?) ==> s.rep.claimed)
    && (c.kind == Logout && (c.pc.LTrivial? || c.pc.LClose? || c.pc.LInit?) && !c.fallback ==> s.rep.claimed)
    && (c.pc.LDispose? ==> IsClosing(s.own.phase))
  }

  predicate CallsOk(s: State) {
    forall i | 0 <= i < |s.calls| :: CallOk(s, s.calls[i])
  }

  predicate Core(s: State) {
    CloseOk(s) && ClientOk(s) && InitOk(s) && ReporterOk(s)
  }

  predicate Inv(s: State) {
    Core(s) && CallsOk(s)
  }

  /** What a call relies on in the rest of the socket only ever grows. */
  predicate Later(s: State, s': State) {
    && (IsClosing(s.own.phase) ==> IsClosing(s'.own.phase))
    && (s.rep.claimed ==> s'.rep.claimed)
    && (s.own.close.CSettled? ==> s'.own.close == s.own.close)
  }

  /** Calls keep their invariant through a step that leaves them, and the running handler, alone. */
  lemma CallsKept(s: State, s': State)
    requires CallsOk(s) && Later(s, s') && s'.calls == s.calls
    requires s.own.close.CHandler? && !s'.own.close.CHandler? ==> HandlerMayReturn(s)
    ensures CallsOk(s')
  {
    forall i | 0 <= i < |s'.calls| ensures CallOk(s', s'.calls[i]) {
      assert CallOk(s, s.calls[i]);
    }
  }

  // ---------------------------------------------------------------- startup and the reporter

  lemma DoCloseKeeps(s: State)
    requires Core(s)
    ensures var s' := s.(own := DoClose(s.own)); Core(s') && Later(s, s') && IsClosing(s'.own.phase)
  {
  }

  lemma ReportAfterKeeps(s: State)
    requires Core(s)
    ensures Core(ReportAfter(s)) && Later(s, ReportAfter(s)) && IsClosing(ReportAfter(s).own.phase)
  {
  }

  lemma AdoptKeeps(s: State)
    requires Core(s) && (s.boot.pc.IRefusedJid? || (s.boot.pc.ICreate? && !IsClosing(s.own.phase)))
    ensures Core(AdoptCreated(s)) && Later(s, AdoptCreated(s))
  {
  }

  /** Startup failed: `discard()` joins the close, the one in flight or the one it has just caused. */
  lemma CatchKeeps(s: State)
    requires Core(s) && s.boot.pc.IRejected?
    ensures CatchInit(s).boot.pc.IJoin? && CatchInit(s).hand == s.hand && CatchInit(s).calls == s.calls
    ensures Core(CatchInit(s)) && Later(s, CatchInit(s))
  {
    if !IsClosing(s.own.phase) {
      assert !s.rep.claimed;
      assert IsClosing(ReportAfter(s.(boot := s.boot.(error := true))).own.phase);
    }
  }

  lemma ProceedKeeps(s: State, ok: bool)
    requires Core(s) && InitEnabled(s) && !s.boot.pc.IRejected? && !Adopting(s, ok)
    ensures Core(InitNext(s, ok)) && Later(s, InitNext(s, ok))
  {
    if !Failing(s.boot.pc, ok) {
      match s.boot.pc {
        case IIdentity =>
        case IProfile =>
        case _ =>
      }
    }
  }

  lemma StartupKeeps(s: State, ok: bool)
    requires Inv(s) && InitEnabled(s)
    ensures Inv(InitNext(s, ok)) && Later(s, InitNext(s, ok))
  {
    if s.boot.pc.IRejected? {
      CatchKeeps(s);
    } else if Adopting(s, ok) {
      AdoptKeeps(s);
    } else {
      ProceedKeeps(s, ok);
    }
    CallsKept(s, InitNext(s, ok));
  }

  /** Once the close and startup have both settled, the client, if there ever was one, is free. */
  lemma ReleasedWhenSettled(s: State)
    requires Core(s) && s.own.close.CSettled? && s.boot.pc.IDone?
    ensures s.boot.built ==> s.hand.frees == 1
  {
  }

  lemma ReporterKeeps(s: State, e: Event)
    requires Inv(s) && Enabled(s, e) && (e.ReporterStep? || e.WatchdogFires?)
    ensures Inv(Apply(s, e)) && Later(s, Apply(s, e))
  {
    if e.ReporterStep? && s.rep.pc.PAwaitInit? {
      ReleasedWhenSettled(s);
    }
    CallsKept(s, Apply(s, e));
  }

  // ---------------------------------------------------------------- the close in flight

  lemma JoinWsKeeps(s: State)
    requires Core(s) && s.own.close.CScheduled?
    ensures Core(JoinWs(s)) && Later(s, JoinWs(s))
  {
  }

  lemma FinishTeardownKeeps(s: State)
    requires Core(s) && (s.own.close.CFlush? || s.own.close.CHandler?)
    ensures var s' := s.(own := FinishTeardown(s.own, s.hand.tracked)); Core(s') && Later(s, s')
  {
  }

  lemma FlushKeeps(s: State, ok: bool)
    requires Core(s) && s.own.close.CFlush?
    ensures var s' := s.(own := Flushed(s.own, ok, s.hand.tracked)); Core(s') && Later(s, s')
  {
    FinishTeardownKeeps(s.(own := s.own.(flushErr := s.own.flushErr || !ok)));
  }

  lemma TeardownKeeps(s: State, ok: bool)
    requires Core(s) && CloseEnabled(s) && !s.own.close.CScheduled? && !s.own.close.CRelease?
    ensures Core(CloseNext(s, ok)) && Later(s, CloseNext(s, ok))
  {
    match s.own.close {
      case CFlush(_) => FlushKeeps(s, ok);
      case CHandler(_) => FinishTeardownKeeps(s);
      case _ =>
    }
  }

  lemma CloseReleaseKeeps(s: State, ok: bool)
    requires Core(s) && s.own.close.CRelease?
    ensures Core(CloseReleaseNext(s, ok)) && Later(s, CloseReleaseNext(s, ok))
  {
  }

  lemma CloseKeeps(s: State, ok: bool)
    requires Inv(s) && CloseEnabled(s)
    ensures Inv(CloseNext(s, ok)) && Later(s, CloseNext(s, ok))
  {
    if s.own.close.CScheduled? {
      JoinWsKeeps(s);
    } else if s.own.close.CRelease? {
      CloseReleaseKeeps(s, ok);
    } else {
      TeardownKeeps(s, ok);
    }
    CallsKept(s, CloseNext(s, ok));
  }

  // ---------------------------------------------------------------- facade, releases, handlers

  lemma FacadeKeeps(s: State, e: Event)
    requires Inv(s) && Enabled(s, e) && (e.WsStep? || e.CallWsClose? || e.CallWsConnect?)
    ensures Inv(Apply(s, e)) && Later(s, Apply(s, e))
  {
    CallsKept(s, Apply(s, e));
  }

  lemma TrackedKeeps(s: State, ok: bool)
    requires Inv(s) && ReleaseInFlight(s.hand.tracked)
    ensures Inv(TrackedNext(s, ok)) && Later(s, TrackedNext(s, ok))
  {
    CallsKept(s, TrackedNext(s, ok));
  }

  lemma RegisterKeeps(s: State)
    requires Inv(s)
    ensures Inv(Apply(s, RegisterHandler)) && Later(s, Apply(s, RegisterHandler))
  {
    CallsKept(s, Apply(s, RegisterHandler));
  }

  // ---------------------------------------------------------------- end(), logout(), disposal

  lemma PlacedCallKeeps(s: State, c: Call)
    requires Inv(s) && CallOk(s, c)
    ensures Inv(PlaceCall(s, c))
  {
    var calls := s.calls + [c];
    forall i | 0 <= i < |calls| ensures CallOk(PlaceCall(s, c), calls[i]) {
      assert CallOk(s, if i < |s.calls| then s.calls[i] else c);
    }
  }

  lemma SetCallKeeps(s: State, i: nat, c: Call)
    requires Inv(s) && i < |s.calls| && CallOk(s, c)
    ensures Inv(SetCall(s, i, c))
  {
    var calls := s.calls[i := c];
    forall j | 0 <= j < |calls| ensures CallOk(SetCall(s, i, c), calls[j]) {
      assert CallOk(s, if j == i then c else s.calls[j]);
    }
  }

  lemma EnteredKeeps(s: State)
    requires Inv(s)
    ensures var s' := s.(own := Entered(s.own));
            && Inv(s') && Later(s, s') && IsClosing(s'.own.phase)
            && (s'.own.close.CHandler? <==> s.own.close.CHandler?)
  {
    DoCloseKeeps(s);
    CallsKept(s, s.(own := Entered(s.own)));
  }

  lemma StartedEndKeeps(s: State, kind: CallKind, fallback: bool, awaited: bool)
    requires Inv(s) && (awaited ==> s.own.close.CHandler?) && (kind == Logout ==> fallback == !s.rep.claimed)
    ensures Inv(StartEnd(s, kind, fallback, awaited)) && Later(s, StartEnd(s, kind, fallback, awaited))
  {
    EnteredKeeps(s);
    var c := Call(kind, if kind == End && s.own.runningEndHandlers then LSettled else EndPc(s.own), fallback, awaited);
    PlacedCallKeeps(s.(own := Entered(s.own)), c);
  }

  lemma StartedLogoutKeeps(s: State, awaited: bool)
    requires Inv(s) && (awaited ==> s.own.close.CHandler?)
    ensures Inv(StartLogout(s, awaited)) && Later(s, StartLogout(s, awaited))
  {
    if Peek(s.own.phase).Some? {
      PlacedCallKeeps(s, Call(Logout, LServer(s.rep.claimed), false, awaited));
    } else {
      StartedEndKeeps(s, Logout, !s.rep.claimed, awaited);
    }
  }

  /** The fallback close of `logout()`, once its `end()` has returned. */
  lemma ReportNowKeeps(s: State, shortCircuit: bool)
    requires Inv(s) && IsClosing(s.own.phase)
    requires shortCircuit || (s.own.close.CSettled? && s.boot.pc.IDone?)
    ensures var s' := s.(rep := ReportNow(s, Fallback(shortCircuit)).rep);
            Inv(s') && Later(s, s') && s'.rep.claimed
  {
    if !shortCircuit {
      ReleasedWhenSettled(s);
    }
    CallsKept(s, s.(rep := ReportNow(s, Fallback(shortCircuit)).rep));
  }

  /** `end()` has returned to call `i`: `shortCircuit` says it resolved inside an end handler. */
  lemma AfterEndKeeps(s: State, i: nat, ok: bool, shortCircuit: bool)
    requires Inv(s) && i < |s.calls| && CallEnabled(s, s.calls[i])
    requires s.calls[i].pc == (if shortCircuit then LTrivial else LInit(ok)) && (shortCircuit ==> ok)
    ensures Inv(AfterEnd(s, i, ok, shortCircuit)) && Later(s, AfterEnd(s, i, ok, shortCircuit))
  {
    var c := s.calls[i];
    assert CallOk(s, c);
    var late := c.kind == Logout && c.fallback && !s.rep.claimed;
    var s1 := if late then s.(rep := ReportNow(s, Fallback(shortCircuit)).rep) else s;
    if late {
      ReportNowKeeps(s, shortCircuit);
    }
    assert CallOk(s1, Returned(c, ok, s1.own.runningEndHandlers));
    SetCallKeeps(s1, i, Returned(c, ok, s1.own.runningEndHandlers));
  }

  lemma ServerAnswers(s: State, i: nat)
    requires Inv(s) && i < |s.calls| && s.calls[i].pc.LServer?
    ensures Inv(CallNext(s, i)) && Later(s, CallNext(s, i))
  {
    var c := s.calls[i];
    assert CallOk(s, c);
    EnteredKeeps(s);
    var s1 := s.(own := Entered(s.own));
    var c1 := c.(pc := EndPc(s.own), fallback := !c.pc.reportedBefore && !s.rep.claimed);
    assert CallOk(s1, c1);
    SetCallKeeps(s1, i, c1);
  }

  lemma CallKeeps(s: State, i: nat)
    requires Inv(s) && i < |s.calls| && CallEnabled(s, s.calls[i])
    ensures Inv(CallNext(s, i)) && Later(s, CallNext(s, i))
  {
    var c := s.calls[i];
    assert CallOk(s, c);
    match c.pc {
      case LServer(_) => ServerAnswers(s, i);
      case LTrivial => AfterEndKeeps(s, i, true, true);
      case LInit(ok) => AfterEndKeeps(s, i, ok, false);
      case LClose => SetCallKeeps(s, i, c.(pc := LInit(s.own.close.ok)));
      case _ => SetCallKeeps(s, i, c.(pc := LSettled));
    }
  }

  // ---------------------------------------------------------------- every step, every run

  lemma StepKeeps(s: State, e: Event)
    requires Inv(s) && Enabled(s, e)
    ensures Inv(Apply(s, e)) && Later(s, Apply(s, e))
  {
    match e {
      case CallEnd(awaited) => StartedEndKeeps(s, End, false, awaited);
      case CallDispose(awaited) => StartedEndKeeps(s, Dispose, false, awaited);
      case CallLogout(awaited) => StartedLogoutKeeps(s, awaited);
      case TerminalEvent => ReportAfterKeeps(s); CallsKept(s, Apply(s, e));
      case RunCompleted => ReportAfterKeeps(s); CallsKept(s, Apply(s, e));
      case RegisterHandler => RegisterKeeps(s);
      case WatchdogFires => ReporterKeeps(s, e);
      case ReporterStep => ReporterKeeps(s, e);
      case InitStep(ok) => StartupKeeps(s, ok);
      case CloseStep(ok) => CloseKeeps(s, ok);
      case TrackedStep(ok) => TrackedKeeps(s, ok);
      case CallStep(i) => CallKeeps(s, i);
      case _ => FacadeKeeps(s, e);
    }
  }
}
