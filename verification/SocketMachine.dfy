/**
 * The socket's life as one step machine: startup, `end()`, `logout()`, async disposal, the
 * WebSocket facade, the owner's close and the terminal-close reporter of src/Socket/core.ts,
 * composed. Each stretch of code between two awaits is one event. A pending promise is a
 * program counter; the scheduler may resume any counter whose awaited thing has settled.
 *
 * `createWhatsAppClient` is called once in a socket's life, so there is at most one client.
 */
module SocketMachine {
  import opened Wrappers
  import opened ClientPhase

  /** What `init()` branches on: legacy auth, a configured push name, the Android profile. */
  datatype Config = Config(legacyStore: bool, pushName: bool, android: bool)

  datatype InitPc =
    | IAuth        // awaiting waitForAuthState
    | IWrap        // awaiting wrapLegacyStore
    | ICreate      // awaiting createWhatsAppClient
    | IRefusedJid  // closing already: awaiting created.getJid()
    | ISettle      // adopt refused: awaiting owner.settled()
    | IPushName    // awaiting setInitialPushName
    | IProps       // awaiting setDeviceProps
    | IIdentity    // awaiting getJid, getLid and getAccount
    | IProfile     // awaiting setClientProfile
    | IRejected    // init() rejected, its catch handler is queued
    | IJoin        // discard() awaiting the close in flight
    | IDiscard     // discard() awaiting the release it started
    | IDone        // initPromise settled

  /** The `release` callback: disconnect, then two barrier ticks and two flushes, then free. */
  datatype ReleasePc = RIdle | RDisconnect | RTail(left: nat) | RDone

  /** The `runClose` of the owner with the socket's own `teardown` inlined. */
  datatype ClosePc =
    | CIdle
    | CScheduled
    | CWs                        // awaiting ws.close()
    | CFallback                  // ws.close() rejected: awaiting client.disconnect()
    | CBarrier(left: nat)
    | CFlush(left: nat)          // two stores
    | CHandler(index: nat)       // awaiting end handler `index`
    | CRelease(rel: ReleasePc)
    | CDrain                     // awaiting the tracked release
    | CSettled(ok: bool)

  datatype WsPc = WOpen | WScheduled | WDisconnecting | WNoClient | WClosed(ok: bool)

  datatype ReporterPc = PIdle | PAwaitClose | PAwaitInit | PFinished

  datatype Cause = AfterTeardown | Watchdog | Fallback(shortCircuit: bool)

  /** What had happened at the instant a close was published. */
  datatype Publication = Publication(cause: Cause, closeSettled: bool, initSettled: bool, clientReleased: bool)

  datatype CallKind = End | Dispose | Logout

  datatype CallPc =
    | LServer(reportedBefore: bool)  // awaiting live.logout()
    | LTrivial                       // end() short-circuited inside an end handler
    | LClose                         // awaiting owner.close()
    | LInit(ok: bool)                // awaiting initPromise in end()'s finally
    | LDispose                       // awaiting initPromise in asyncDispose's finally
    | LPublished                     // awaiting terminalClose.published()
    | LSettled

  /** `awaited`: the call was made by the end handler now running, which awaits it. */
  datatype Call = Call(kind: CallKind, pc: CallPc, fallback: bool, awaited: bool)

  /** `init()`: its progress and the closure variables it sets. */
  datatype Boot = Boot(pc: InitPc, error: bool, initialized: bool, ran: bool, built: bool)

  /** The owner with the teardown it runs. `joined` is how the ws close it awaits came out. */
  datatype Own = Own(phase: Phase, close: ClosePc, joined: Option<bool>, flushErr: bool,
                     handlers: nat, runningEndHandlers: bool)

  /** The release in `pendingReleases`, calls of `client.free()`, and one made under a `disconnect()`. */
  datatype Hand = Hand(tracked: ReleasePc, frees: nat, freedBusy: bool)

  datatype Reporter = Reporter(claimed: bool, pc: ReporterPc, watchdog: bool, log: seq<Publication>)

  datatype State = State(cfg: Config, boot: Boot, own: Own, ws: WsPc, hand: Hand, rep: Reporter, calls: seq<Call>)

  datatype Event =
    // callers and timers
    | CallEnd(awaited: bool)
    | CallDispose(awaited: bool)
    | CallLogout(awaited: bool)
    | CallWsClose
    | CallWsConnect
    | RegisterHandler
    | TerminalEvent              // the dispatcher's onTerminalClose
    | RunCompleted               // waitForRunCompletion settles, either way
    | WatchdogFires
    // a continuation runs; `ok` is the outcome of the external call it awaited
    | InitStep(ok: bool)
    | CloseStep(ok: bool)
    | WsStep(ok: bool)
    | TrackedStep(ok: bool)
    | ReporterStep
    | CallStep(index: nat)

  /** The one native handle. */
  const HANDLE: Client := 0

  function Initial(cfg: Config, handlers: nat): State {
    State(cfg, Boot(IAuth, false, false, false, false), Own(Starting, CIdle, None, false, handlers, false),
          WOpen, Hand(RIdle, 0, false), Reporter(false, PIdle, false, []), [])
  }

  /** Events the socket itself, or a call already made, is bound to produce. */
  predicate IsInternal(e: Event) {
    e.InitStep? || e.CloseStep? || e.WsStep? || e.TrackedStep? || e.ReporterStep? || e.CallStep?
  }

  // ---------------------------------------------------------------- building blocks

  function DoClose(o: Own): Own {
    if IsClosing(o.phase) then o else o.(phase := ClosePhase(o.phase), close := CScheduled)
  }

  /** One publish per claim, whatever gets there first. */
  function Logged(log: seq<Publication>, p: Publication): seq<Publication> {
    if log == [] then [p] else log
  }

  function Snapshot(s: State, cause: Cause): Publication {
    Publication(cause, s.own.close.CSettled?, s.boot.pc.IDone?, !s.boot.built || s.hand.frees == 1)
  }

  /** `terminalClose.reportAfter` with the teardown of `reportTerminalClose`. */
  function ReportAfter(s: State): State {
    if s.rep.claimed then s
    else s.(own := DoClose(s.own), rep := s.rep.(claimed := true, pc := PAwaitClose, watchdog := true))
  }

  function ReportNow(s: State, cause: Cause): State {
    if s.rep.claimed then s
    else s.(rep := s.rep.(claimed := true, pc := PFinished, log := Logged(s.rep.log, Snapshot(s, cause))))
  }

  predicate ReleaseInFlight(r: ReleasePc) {
    r.RDisconnect? || r.RTail?
  }

  function ReleaseNext(r: ReleasePc, ok: bool): ReleasePc {
    match r
    case RDisconnect => if ok then RTail(4) else RDone
    case RTail(n) => if n > 1 then RTail(n - 1) else RDone
    case _ => r
  }

  /** A `disconnect()` on the client is in flight. */
  predicate DisconnectRunning(ws: WsPc, close: ClosePc, tracked: ReleasePc) {
    ws.WDisconnecting? || close.CFallback? || close == CRelease(RDisconnect) || tracked.RDisconnect?
  }

  /** A release has come this far; its last step calls `client.free()`. */
  function Freed(h: Hand, r: ReleasePc, busy: bool): Hand {
    h.(frees := if r.RDone? then h.frees + 1 else h.frees, freedBusy := h.freedBusy || (r.RDone? && busy))
  }

  // ---------------------------------------------------------------- startup

  predicate InitEnabled(s: State) {
    match s.boot.pc
    case IDone => false
    case ISettle => !ReleaseInFlight(s.hand.tracked)
    case IDiscard => !ReleaseInFlight(s.hand.tracked)
    case IJoin => s.own.close.CSettled?
    case _ => true
  }

  /** `owner.adopt(created)`, then startup goes on or waits for the refused client's release. */
  function AdoptCreated(s: State): State {
    var accepted := s.own.phase.Starting?;
    s.(boot := s.boot.(built := true,
                       pc := if !accepted then ISettle else if s.cfg.pushName then IPushName else IProps),
       own := s.own.(phase := AdoptPhase(s.own.phase, HANDLE)),
       hand := s.hand.(tracked := if accepted then s.hand.tracked else RDisconnect))
  }

  /** `owner.discard()` as the catch handler of startup calls it. */
  function DiscardFromInit(s: State): State {
    var release := s.own.phase.Running?;
    s.(boot := s.boot.(pc := if IsClosing(s.own.phase) then IJoin else if release then IDiscard else IDone),
       own := s.own.(phase := if release then Starting else s.own.phase),
       hand := s.hand.(tracked := if release then RDisconnect else s.hand.tracked))
  }

  function CatchInit(s: State): State {
    if IsClosing(s.own.phase) then DiscardFromInit(s)
    else DiscardFromInit(ReportAfter(s.(boot := s.boot.(error := true))))
  }

  /** What startup does when the thing it awaited came out fine. */
  function Proceed(cfg: Config, b: Boot, closing: bool): Boot {
    match b.pc
    case IAuth => b.(pc := if cfg.legacyStore then IWrap else ICreate)
    case IWrap => b.(pc := ICreate)
    case ICreate => b.(built := true, pc := IRefusedJid)
    case IPushName => b.(pc := if closing then IDone else IProps)
    case IProps => b.(pc := if closing then IDone else IIdentity)
    case IIdentity =>
      if cfg.android && !closing then b.(pc := IProfile)
      else b.(pc := IDone, ran := b.ran || !closing, initialized := b.initialized || !closing)
    case IProfile => b.(pc := IDone, ran := b.ran || !closing, initialized := b.initialized || !closing)
    case _ => b.(pc := IDone)
  }

  predicate Adopting(s: State, ok: bool) {
    s.boot.pc.IRefusedJid? || (s.boot.pc.ICreate? && ok && !IsClosing(s.own.phase))
  }

  predicate Failing(pc: InitPc, ok: bool) {
    !ok && !pc.ISettle? && !pc.IDiscard? && !pc.IJoin?
  }

  function InitNext(s: State, ok: bool): State
    requires InitEnabled(s)
  {
    if s.boot.pc.IRejected? then CatchInit(s)
    else if Adopting(s, ok) then AdoptCreated(s)
    else s.(boot := if Failing(s.boot.pc, ok) then s.boot.(pc := IRejected)
                    else Proceed(s.cfg, s.boot, IsClosing(s.own.phase)))
  }

  // ---------------------------------------------------------------- the close in flight

  predicate HandlerMayReturn(s: State) {
    forall i | 0 <= i < |s.calls| :: s.calls[i].awaited ==> s.calls[i].pc.LSettled?
  }

  predicate CloseEnabled(s: State) {
    match s.own.close
    case CIdle => false
    case CSettled(_) => false
    case CWs => s.own.joined.Some?
    case CHandler(_) => HandlerMayReturn(s)
    case CDrain => !ReleaseInFlight(s.hand.tracked)
    case _ => true
  }

  /** `ws.close()` as teardown calls it: start a close, or join the one there is. */
  function JoinWs(s: State): State {
    s.(ws := if s.ws.WOpen? then WScheduled else s.ws,
       own := s.own.(close := CWs, joined := if s.ws.WClosed? then Some(s.ws.ok) else None))
  }

  /** Past the transport: the barrier only with a client, then the stores. */
  function AfterWs(o: Own): ClosePc {
    if Peek(o.phase).Some? then CBarrier(2) else CFlush(2)
  }

  function Drained(flushErr: bool, tracked: ReleasePc): ClosePc {
    if ReleaseInFlight(tracked) then CDrain else CSettled(!flushErr)
  }

  /** The `finally` of runClose. */
  function FinishTeardown(o: Own, tracked: ReleasePc): Own {
    o.(phase := Closed, runningEndHandlers := false,
       close := if Peek(o.phase).Some? then CRelease(RDisconnect) else Drained(o.flushErr, tracked))
  }

  function Flushed(o: Own, ok: bool, tracked: ReleasePc): Own
    requires o.close.CFlush?
  {
    var o1 := o.(flushErr := o.flushErr || !ok);
    if o.close.left > 1 then o1.(close := CFlush(o.close.left - 1))
    else if o.handlers > 0 then o1.(close := CHandler(0), runningEndHandlers := true)
    else FinishTeardown(o1, tracked)
  }

  function Handled(o: Own, tracked: ReleasePc): Own
    requires o.close.CHandler?
  {
    if o.close.index + 1 < o.handlers then o.(close := CHandler(o.close.index + 1)) else FinishTeardown(o, tracked)
  }

  function TeardownNext(o: Own, ok: bool, tracked: ReleasePc): Own
    requires o.close.CWs? ==> o.joined.Some?
  {
    match o.close
    case CWs => o.(close := if !o.joined.value && Peek(o.phase).Some? then CFallback else AfterWs(o))
    case CFallback => o.(close := AfterWs(o))
    case CBarrier(n) => o.(close := if n > 1 then CBarrier(n - 1) else CFlush(2))
    case CFlush(_) => Flushed(o, ok, tracked)
    case CHandler(_) => Handled(o, tracked)
    case _ => o.(close := Drained(o.flushErr, tracked))
  }

  function CloseReleaseNext(s: State, ok: bool): State
    requires s.own.close.CRelease?
  {
    var r := ReleaseNext(s.own.close.rel, ok);
    s.(own := s.own.(close := if r.RDone? then Drained(s.own.flushErr, s.hand.tracked) else CRelease(r)),
       hand := Freed(s.hand, r, DisconnectRunning(s.ws, CDrain, s.hand.tracked)))
  }

  function CloseNext(s: State, ok: bool): State
    requires CloseEnabled(s)
  {
    if s.own.close.CScheduled? then JoinWs(s)
    else if s.own.close.CRelease? then CloseReleaseNext(s, ok)
    else s.(own := TeardownNext(s.own, ok, s.hand.tracked))
  }

  // ---------------------------------------------------------------- facade, releases, reporter

  predicate WsBusy(ws: WsPc) {
    ws.WScheduled? || ws.WDisconnecting? || ws.WNoClient?
  }

  /** The deferred body of `ws.close()` reads the client when it runs, then awaits its disconnect. */
  function WsNext(s: State, ok: bool): State {
    var settled := !s.ws.WScheduled?;
    var outcome := ok || !s.ws.WDisconnecting?;
    s.(ws := if settled then WClosed(outcome)
             else if Peek(s.own.phase).Some? then WDisconnecting else WNoClient,
       own := s.own.(joined := if settled && s.own.close.CWs? && s.own.joined.None? then Some(outcome)
                               else s.own.joined))
  }

  function TrackedNext(s: State, ok: bool): State {
    var r := ReleaseNext(s.hand.tracked, ok);
    s.(hand := Freed(s.hand, r, DisconnectRunning(s.ws, s.own.close, RDone)).(tracked := r))
  }

  function ReporterNext(s: State): State {
    s.(rep := if s.rep.pc.PAwaitClose? then s.rep.(pc := PAwaitInit)
              else s.rep.(pc := PFinished, watchdog := false, log := Logged(s.rep.log, Snapshot(s, AfterTeardown))))
  }

  // ---------------------------------------------------------------- end(), logout(), disposal

  function SetCall(s: State, i: nat, c: Call): State
    requires i < |s.calls|
  {
    s.(calls := s.calls[i := c])
  }

  predicate CallEnabled(s: State, c: Call) {
    match c.pc
    case LClose => s.own.close.CSettled?
    case LInit(_) => s.boot.pc.IDone?
    case LDispose => s.boot.pc.IDone?
    case LPublished => s.rep.log != []
    case LSettled => false
    case _ => true
  }

  /** What a call that has just called `end()` awaits; the owner goes through `Entered`. */
  function EndPc(o: Own): CallPc {
    if o.runningEndHandlers then LTrivial else LClose
  }

  function Entered(o: Own): Own {
    if o.runningEndHandlers then o else DoClose(o)
  }

  /** The code of `logout()` after the awaited `end`, and likewise for the other callers. */
  function Returned(c: Call, ok: bool, running: bool): Call {
    c.(pc := match c.kind
             case End => LSettled
             case Dispose => LDispose
             case Logout => if !ok || running then LSettled else LPublished)
  }

  function AfterEnd(s: State, i: nat, ok: bool, shortCircuit: bool): State
    requires i < |s.calls|
  {
    var c := s.calls[i];
    var late := c.kind == Logout && c.fallback && !s.rep.claimed;
    s.(rep := if late then ReportNow(s, Fallback(shortCircuit)).rep else s.rep,
       calls := s.calls[i := Returned(c, ok, s.own.runningEndHandlers)])
  }

  function CallNext(s: State, i: nat): State
    requires i < |s.calls| && CallEnabled(s, s.calls[i])
  {
    var c := s.calls[i];
    match c.pc
    case LServer(before) =>
      SetCall(s.(own := Entered(s.own)), i,
              c.(pc := EndPc(s.own), fallback := !before && !s.rep.claimed))
    case LTrivial => AfterEnd(s, i, true, true)
    case LClose => SetCall(s, i, c.(pc := LInit(s.own.close.ok)))
    case LInit(ok) => AfterEnd(s, i, ok, false)
    case _ => SetCall(s, i, c.(pc := LSettled))
  }

  function PlaceCall(s: State, c: Call): State {
    s.(calls := s.calls + [c])
  }

  /** Calling `end()` or the async disposer: an `end()` inside an end handler has already resolved. */
  function StartEnd(s: State, kind: CallKind, fallback: bool, awaited: bool): State {
    PlaceCall(s.(own := Entered(s.own)),
              Call(kind, if kind == End && s.own.runningEndHandlers then LSettled else EndPc(s.own), fallback, awaited))
  }

  function StartLogout(s: State, awaited: bool): State {
    if Peek(s.own.phase).Some? then PlaceCall(s, Call(Logout, LServer(s.rep.claimed), false, awaited))
    else StartEnd(s, Logout, !s.rep.claimed, awaited)
  }

  // ---------------------------------------------------------------- the machine

  predicate Enabled(s: State, e: Event) {
    match e
    case CallEnd(awaited) => awaited ==> s.own.close.CHandler?
    case CallDispose(awaited) => awaited ==> s.own.close.CHandler?
    case CallLogout(awaited) => awaited ==> s.own.close.CHandler?
    case CallWsClose => true
    case CallWsConnect => true
    case RegisterHandler => true
    case TerminalEvent => true
    case RunCompleted => s.boot.ran
    case WatchdogFires => s.rep.watchdog
    case InitStep(_) => InitEnabled(s)
    case CloseStep(_) => CloseEnabled(s)
    case WsStep(_) => WsBusy(s.ws)
    case TrackedStep(_) => ReleaseInFlight(s.hand.tracked)
    case ReporterStep =>
      (s.rep.pc.PAwaitClose? && s.own.close.CSettled?) || (s.rep.pc.PAwaitInit? && s.boot.pc.IDone?)
    case CallStep(i) => i < |s.calls| && CallEnabled(s, s.calls[i])
  }

  function Apply(s: State, e: Event): State
    requires Enabled(s, e)
  {
    match e
    case CallEnd(awaited) => StartEnd(s, End, false, awaited)
    case CallDispose(awaited) => StartEnd(s, Dispose, false, awaited)
    case CallLogout(awaited) => StartLogout(s, awaited)
    case CallWsClose => s.(ws := if s.ws.WOpen? then WScheduled else s.ws)
    case CallWsConnect => s.(ws := if Peek(s.own.phase).None? || WsBusy(s.ws) then s.ws else WOpen)
    case RegisterHandler => s.(own := s.own.(handlers := s.own.handlers + 1))
    case TerminalEvent => ReportAfter(s)
    case RunCompleted => if s.own.phase.Running? then ReportAfter(s) else s
    case WatchdogFires => s.(rep := s.rep.(watchdog := false, log := Logged(s.rep.log, Snapshot(s, Watchdog))))
    case InitStep(ok) => InitNext(s, ok)
    case CloseStep(ok) => CloseNext(s, ok)
    case WsStep(ok) => WsNext(s, ok)
    case TrackedStep(ok) => TrackedNext(s, ok)
    case ReporterStep => ReporterNext(s)
    case CallStep(i) => CallNext(s, i)
  }

  ghost predicate IsRun(s: State, events: seq<Event>)
    decreases |events|
  {
    events == [] || (Enabled(s, events[0]) && IsRun(Apply(s, events[0]), events[1..]))
  }

  ghost function Exec(s: State, events: seq<Event>): State
    requires IsRun(s, events)
    decreases |events|
  {
    if events == [] then s else Exec(Apply(s, events[0]), events[1..])
  }

  /** The states some run from a fresh socket ends in. */
  ghost predicate Reachable(s: State) {
    exists cfg, handlers: nat, events ::
      IsRun(Initial(cfg, handlers), events) && Exec(Initial(cfg, handlers), events) == s
  }
}
