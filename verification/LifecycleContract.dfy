/**
 * The lifecycle contract of scripts/compatibility/lifecycle-contract-core.ts, and the dispatcher of
 * src/Socket/events-core.ts wired to the terminal close reporter, judged by it.
 */
module LifecycleTrace {
  import opened Wrappers

  datatype Connection = Open | Connecting | Close

  /** A `connection.update` as it is emitted: which keys are there, and with what. */
  datatype QrKey = NoKey | Undefined | QrText(code: string)

  datatype Partial = Partial(connection: Option<Connection>, qrKey: QrKey, received: Option<bool>,
                             lastDisconnect: Option<Option<int>>)

  datatype Qr = Absent | Cleared | Code

  /** The same update as the checks see it. */
  datatype Update = Update(connection: Option<Connection>, qr: Qr, received: Option<bool>,
                           lastDisconnect: bool, lastDisconnectStatus: Option<int>)

  function NormalizeUpdate(p: Partial): Update {
    Update(p.connection,
           match p.qrKey { case NoKey => Absent case Undefined => Cleared case QrText(_) => Code },
           p.received, p.lastDisconnect.Some?,
           if p.lastDisconnect.Some? then p.lastDisconnect.value else None)
  }

  datatype Event = ConnectionUpdate(update: Update) | CredsUpdate(authenticated: bool) | MessagesUpsert | HistorySet

  datatype Status = Holds | Violated | NotExercised

  type Trace = seq<Event>

  // ---------------------------------------------------------------- what a trace says

  predicate Carries(e: Event, c: Connection) { e.ConnectionUpdate? && e.update.connection == Some(c) }

  predicate Stateful(e: Event) { e.ConnectionUpdate? && e.update.connection.Some? }

  predicate Reports(e: Event) { e.ConnectionUpdate? && e.update.received == Some(true) }

  predicate Disconnects(e: Event) { e.ConnectionUpdate? && e.update.lastDisconnect }

  /** The positions of the events a filter keeps, in order. */
  function Positions(t: Trace, keep: Event -> bool): seq<nat> {
    if t == [] then []
    else
      var last := |t| - 1;
      Positions(t[..last], keep) + (if keep(t[last]) then [last] else [])
  }

  ghost predicate Ascending(p: seq<nat>) { forall a, b :: 0 <= a < b < |p| ==> p[a] < p[b] }

  /** `p` lists, in order, exactly the positions the filter keeps. */
  ghost predicate Lists(p: seq<nat>, t: Trace, keep: Event -> bool) {
    Ascending(p)
    && (forall m :: 0 <= m < |p| ==> p[m] < |t| && keep(t[p[m]]))
    && (forall i :: 0 <= i < |t| && keep(t[i]) ==> i in p)
  }

  lemma {:induction false} PositionsAreExact(t: Trace, keep: Event -> bool)
    ensures Lists(Positions(t, keep), t, keep)
    decreases |t|
  {
    if t != [] {
      PositionsAreExact(t[..|t| - 1], keep);
      ListGrows(Positions(t[..|t| - 1], keep), t, keep);
    }
  }

  /** One more event, and its position where the filter keeps it. */
  lemma ListGrows(p: seq<nat>, t: Trace, keep: Event -> bool)
    requires t != [] && Lists(p, t[..|t| - 1], keep)
    ensures Lists(p + (if keep(t[|t| - 1]) then [|t| - 1] else []), t, keep)
  {
    var last, shorter := |t| - 1, t[..|t| - 1];
    var longer := p + (if keep(t[last]) then [last] else []);
    forall m | 0 <= m < |longer|
      ensures longer[m] < |t| && keep(t[longer[m]]) && (m < |p| ==> longer[m] < last)
    {
      if m < |p| {
        assert longer[m] == p[m] && keep(shorter[p[m]]) && shorter[p[m]] == t[p[m]];
      }
    }
    forall i | 0 <= i < |t| && keep(t[i])
      ensures i in longer
    {
      if i < last {
        assert shorter[i] == t[i] && i in p;
      }
    }
  }

  /** The update at `i` decides the state in effect at `p`. */
  ghost predicate Decides(t: Trace, i: int, p: nat) {
    0 <= i <= p < |t| && Stateful(t[i]) && forall k :: i < k <= p ==> !Stateful(t[k])
  }

  lemma OneDecides(t: Trace, i: int, j: int, p: nat)
    requires Decides(t, i, p) && Decides(t, j, p)
    ensures i == j
  {
  }

  ghost predicate OpenAt(t: Trace, p: nat) { exists i :: Decides(t, i, p) && Carries(t[i], Open) }

  /** Two opens with no other state between them. */
  ghost predicate Republished(t: Trace, i: int, j: int) {
    0 <= i < j < |t| && Carries(t[i], Open) && Carries(t[j], Open) && forall k :: i < k < j ==> !Stateful(t[k])
  }
}

module LifecycleChecks {
  import opened Wrappers
  import opened LifecycleTrace

  /** stateAt: the loop stops at the first update past the position. */
  method StateAt(t: Trace, position: nat) returns (state: Option<Connection>)
    requires position < |t|
    ensures state.None? <==> forall k :: 0 <= k <= position ==> !Stateful(t[k])
    ensures forall i :: Decides(t, i, position) ==> state == t[i].update.connection
    ensures state == Some(Open) <==> OpenAt(t, position)
  {
    var states := Positions(t, Stateful);
    PositionsAreExact(t, Stateful);
    state := None;
    var n := 0;
    while n < |states|
      invariant n <= |states|
      invariant forall m :: 0 <= m < n ==> states[m] <= position
      invariant state == if n == 0 then None else t[states[n - 1]].update.connection
    {
      if states[n] > position {
        break;
      }
      state := t[states[n]].update.connection;
      n := n + 1;
    }
    forall k | 0 <= k <= position && Stateful(t[k])
      ensures n > 0 && k <= states[n - 1]
    {
      var m :| 0 <= m < |states| && states[m] == k;
    }
    if n > 0 {
      var i := states[n - 1];
      assert Decides(t, i, position);
      forall j | Decides(t, j, position)
        ensures j == i
      {
        OneDecides(t, i, j, position);
      }
    }
  }

  /** The first of these positions that was not reached while open. */
  method FindStray(t: Trace, targets: seq<nat>) returns (stray: Option<nat>)
    requires forall m :: 0 <= m < |targets| ==> targets[m] < |t|
    ensures stray.None? ==> forall m :: 0 <= m < |targets| ==> OpenAt(t, targets[m])
    ensures stray.Some? ==> stray.value in targets && !OpenAt(t, stray.value)
  {
    var n := 0;
    while n < |targets|
      invariant n <= |targets|
      invariant forall m :: 0 <= m < n ==> OpenAt(t, targets[m])
    {
      var p := targets[n];
      var state := StateAt(t, p);
      if state != Some(Open) {
        return Some(p);
      }
      n := n + 1;
    }
    return None;
  }

  /** LC-002: every `connecting` clears the QR and resets pending notifications. */
  method ConnectingClears(t: Trace) returns (status: Status)
    ensures status.NotExercised? <==> forall i :: 0 <= i < |t| ==> !Carries(t[i], Connecting)
    ensures status.Violated? <==> exists i :: 0 <= i < |t| && Carries(t[i], Connecting) && !Clears(t[i].update)
  {
    var keep := e => Carries(e, Connecting);
    var targets := Positions(t, keep);
    PositionsAreExact(t, keep);
    if |targets| == 0 {
      return NotExercised;
    }
    assert targets[0] in targets;
    var n := 0;
    while n < |targets|
      invariant n <= |targets|
      invariant forall m :: 0 <= m < n ==> Clears(t[targets[m]].update)
    {
      var update := t[targets[n]].update;
      if update.qr != Cleared {
        return Violated;
      }
      if update.received != Some(false) {
        return Violated;
      }
      n := n + 1;
    }
    return Holds;
  }

  predicate Clears(u: Update) { u.qr == Cleared && u.received == Some(false) }

  /** LC-003: `open` is not republished without leaving the state first. */
  method OpenNotRepublished(t: Trace) returns (status: Status)
    ensures status.NotExercised? <==> forall i :: 0 <= i < |t| ==> !Carries(t[i], Open)
    ensures status.Violated? <==> exists i, j :: Republished(t, i, j)
  {
    var states := Positions(t, Stateful);
    PositionsAreExact(t, Stateful);
    if !exists n :: 0 <= n < |states| && Carries(t[states[n]], Open) {
      return NotExercised;
    }
    var open := false;
    var n := 0;
    while n < |states|
      invariant n <= |states|
      invariant open <==> n > 0 && Carries(t[states[n - 1]], Open)
      invariant forall m :: 0 < m < n ==> !(Carries(t[states[m - 1]], Open) && Carries(t[states[m]], Open))
    {
      if Carries(t[states[n]], Open) {
        if open {
          Neighbours(t, states, n);
          assert Republished(t, states[n - 1], states[n]);
          return Violated;
        }
        open := true;
      } else {
        open := false;
      }
      n := n + 1;
    }
    forall i, j | Republished(t, i, j)
      ensures false
    {
      var m := NextState(t, states, i, j);
    }
    return Holds;
  }

  /** Nothing stateful lies between two neighbours of the filtered list, and conversely. */
  lemma Neighbours(t: Trace, states: seq<nat>, n: nat)
    requires Lists(states, t, Stateful) && 0 < n < |states|
    ensures forall k :: states[n - 1] < k < states[n] ==> !Stateful(t[k])
  {
    forall k | states[n - 1] < k < states[n]
      ensures !Stateful(t[k])
    {
      assert Stateful(t[k]) ==> k in states;
    }
  }

  lemma NextState(t: Trace, states: seq<nat>, i: int, j: int) returns (m: nat)
    requires Lists(states, t, Stateful) && Republished(t, i, j)
    ensures 0 < m < |states| && states[m - 1] == i && states[m] == j
  {
    assert i in states && j in states;
    var a :| 0 <= a < |states| && states[a] == i;
    m :| 0 <= m < |states| && states[m] == j;
    var next := states[a + 1];
    assert i < next <= j && Stateful(t[next]);
  }

  /** LC-006: a socket closes at most once. */
  method ClosesOnce(t: Trace) returns (status: Status)
    ensures status.NotExercised? <==> forall i :: 0 <= i < |t| ==> !Carries(t[i], Close)
    ensures status.Violated? <==> exists i, j :: 0 <= i < j < |t| && Carries(t[i], Close) && Carries(t[j], Close)
  {
    var keep := e => Carries(e, Close);
    var closes := Positions(t, keep);
    PositionsAreExact(t, keep);
    if |closes| == 0 {
      return NotExercised;
    }
    assert closes[0] in closes;
    if |closes| == 1 {
      return Holds;
    }
    assert closes[1] in closes && closes[0] < closes[1];
    return Violated;
  }

  /** LC-007: `lastDisconnect` rides only on `close`. */
  method DisconnectOnlyOnClose(t: Trace) returns (status: Status)
    ensures status.NotExercised? <==> forall i :: 0 <= i < |t| ==> !Disconnects(t[i])
    ensures status.Violated? <==> exists i :: 0 <= i < |t| && Disconnects(t[i]) && !Carries(t[i], Close)
  {
    var carriers := Positions(t, Disconnects);
    PositionsAreExact(t, Disconnects);
    if |carriers| == 0 {
      return NotExercised;
    }
    assert carriers[0] in carriers;
    if exists n :: 0 <= n < |carriers| && !Carries(t[carriers[n]], Close) {
      return Violated;
    }
    return Holds;
  }

  /** LC-008: `close` carries a status code. */
  method CloseCarriesStatus(t: Trace) returns (status: Status)
    ensures status.NotExercised? <==> forall i :: 0 <= i < |t| ==> !Carries(t[i], Close)
    ensures status.Violated? <==> exists i :: 0 <= i < |t| && Carries(t[i], Close) && !HasStatus(t[i].update)
  {
    var keep := e => Carries(e, Close);
    var closes := Positions(t, keep);
    PositionsAreExact(t, keep);
    if |closes| == 0 {
      return NotExercised;
    }
    assert closes[0] in closes;
    if exists n :: 0 <= n < |closes| && !HasStatus(t[closes[n]].update) {
      return Violated;
    }
    return Holds;
  }

  predicate HasStatus(u: Update) { u.lastDisconnect && u.lastDisconnectStatus.Some? }

  /** LC-009: pending notifications are only reported while the socket is open. */
  method PendingOnlyWhileOpen(t: Trace) returns (status: Status)
    ensures status.NotExercised? <==> forall i :: 0 <= i < |t| ==> !Reports(t[i])
    ensures status.Violated? <==> exists i :: 0 <= i < |t| && Reports(t[i]) && !OpenAt(t, i)
  {
    var targets := Positions(t, Reports);
    PositionsAreExact(t, Reports);
    if |targets| == 0 {
      return NotExercised;
    }
    assert targets[0] in targets;
    var stray := FindStray(t, targets);
    return if stray.Some? then Violated else Holds;
  }

  /** LC-011: no message reaches the consumer while the socket is not open. */
  method MessagesOnlyWhileOpen(t: Trace) returns (status: Status)
    ensures status.NotExercised? <==> forall i :: 0 <= i < |t| ==> !t[i].MessagesUpsert?
    ensures status.Violated? <==> exists i :: 0 <= i < |t| && t[i].MessagesUpsert? && !OpenAt(t, i)
  {
    var keep := (e: Event) => e.MessagesUpsert?;
    var upserts := Positions(t, keep);
    PositionsAreExact(t, keep);
    if |upserts| == 0 {
      return NotExercised;
    }
    assert upserts[0] in upserts;
    var stray := FindStray(t, upserts);
    return if stray.Some? then Violated else Holds;
  }
}

/** The dispatchers of connection events, and everything else that feeds the same trace. */
module LifecycleDispatcher {
  import opened Wrappers
  import opened LifecycleTrace
  import C = LifecycleChecks
  import R = TerminalCloseReporter

  const CONNECTION_CLOSED := 428
  const CONNECTION_REPLACED := 440
  const TIMED_OUT := 408
  const LOGGED_OUT := 401
  const RESTART_REQUIRED := 515
  const MULTIDEVICE_MISMATCH := 411
  const FORBIDDEN := 403
  const UNAVAILABLE_SERVICE := 503
  const CLIENT_OUTDATED_STATUS := 405
  const RATE_LIMITED_STREAM_ERROR := "429"

  predicate IsReconnectableConnectFailure(reason: Option<int>) { reason == Some(500) || reason == Some(503) }

  function MapConnectFailure(reason: Option<int>): int {
    match reason
    case None => CONNECTION_CLOSED
    case Some(r) =>
      if r == 401 || r == 403 || r == 406 then LOGGED_OUT
      else if r == 402 then FORBIDDEN
      else if r == 405 then CLIENT_OUTDATED_STATUS
      else if r == 411 then MULTIDEVICE_MISMATCH
      else if r == 503 || r == 501 then UNAVAILABLE_SERVICE
      else if r == 408 then TIMED_OUT
      else if r == 515 then RESTART_REQUIRED
      else CONNECTION_CLOSED
  }

  /** `surfaces`: the message is not ignored and not hidden, so it reaches `messages.upsert`. */
  datatype EngineEvent =
    | Connected | OfflineSyncCompleted | Disconnected | QrCode(code: string) | PairSuccess | PairError
    | LoggedOut | ConnectFailure(reason: Option<int>) | StreamError(code: string) | StreamReplaced
    | ClientOutdated | TemporaryBan | QrCodesExhausted | ReachoutTimelock
    | Message(surfaces: bool) | HistorySync | Unrelated

  datatype Socket = Socket(
    reporter: R.Report,
    errors: seq<int>,    // the status of the error each report came with
    autoReconnect: bool,
    trace: Trace)

  /** What a listener or a teardown may do while a report is under way. */
  datatype Weather = Weather(throwsAtOnce: bool, listenerThrows: bool)

  datatype Step =
    | Engine(e: EngineEvent, w: Weather)
    | SetAutoReconnect(on: bool)
    | Bootstrap                              // the microtask of init
    | FetchedTimelock                        // an update with no connection state
    | TerminalReport(status: int, w: Weather)  // run completion, a failed startup
    | LogoutFallback(listenerThrows: bool)
    | TeardownSettles(listenerThrows: bool)
    | WatchdogFires(listenerThrows: bool)

  const NOTHING := Partial(None, NoKey, None, None)

  function Emit(s: Socket, p: Partial): Socket { s.(trace := s.trace + [ConnectionUpdate(NormalizeUpdate(p))]) }

  function CloseOf(status: int): Partial { NOTHING.(connection := Some(Close), lastDisconnect := Some(Some(status))) }

  /** One step of the reporter; when it publishes, the winner's close reaches the trace. */
  function Reported(s: Socket, e: R.Event): Socket
    requires R.Enabled(s.reporter, e)
  {
    var next := s.(reporter := R.Apply(s.reporter, e));
    if |next.reporter.publishes| > |s.reporter.publishes| && next.reporter.winner < |s.errors|
    then Emit(next, CloseOf(s.errors[next.reporter.winner]))
    else next
  }

  /** emitClose, through `onTerminalClose`. */
  function EmitClose(s: Socket, status: int, w: Weather): Socket {
    Reported(s.(errors := s.errors + [status]), R.ReportAfter(w.throwsAtOnce, w.listenerThrows))
  }

  function Retrying(): Partial { Partial(Some(Connecting), Undefined, Some(false), None) }

  datatype Outcome = Silent | Emits(event: Event) | Closes(status: int)

  function Updates(p: Partial): Outcome { Emits(ConnectionUpdate(NormalizeUpdate(p))) }

  /** The table of dispatchers. */
  function OutcomeOf(e: EngineEvent, autoReconnect: bool): Outcome {
    match e
    case Connected => Updates(NOTHING.(connection := Some(Open)))
    case OfflineSyncCompleted => Updates(NOTHING.(received := Some(true)))
    case Disconnected => if autoReconnect then Updates(Retrying()) else Closes(CONNECTION_CLOSED)
    case QrCode(code) => Updates(NOTHING.(qrKey := QrText(code)))
    case PairSuccess => Emits(CredsUpdate(true))
    case PairError => Updates(Retrying())
    case LoggedOut => Closes(LOGGED_OUT)
    case ConnectFailure(reason) =>
      if IsReconnectableConnectFailure(reason) && autoReconnect then Updates(Retrying())
      else Closes(MapConnectFailure(reason))
    case StreamError(code) => if code == RATE_LIMITED_STREAM_ERROR && autoReconnect then Updates(Retrying()) else Silent
    case StreamReplaced => Closes(CONNECTION_REPLACED)
    case ClientOutdated => Closes(CLIENT_OUTDATED_STATUS)
    case TemporaryBan => Closes(FORBIDDEN)
    case QrCodesExhausted => Closes(TIMED_OUT)
    case ReachoutTimelock => Updates(NOTHING)
    case Message(surfaces) => if surfaces then Emits(MessagesUpsert) else Silent
    case HistorySync => Emits(HistorySet)
    case Unrelated => Silent
  }

  function Dispatch(s: Socket, e: EngineEvent, w: Weather): Socket {
    match OutcomeOf(e, s.autoReconnect)
    case Silent => s
    case Emits(event) => s.(trace := s.trace + [event])
    case Closes(status) => EmitClose(s, status, w)
  }

  predicate Enabled(s: Socket, step: Step) {
    match step
    case TeardownSettles(_) => s.reporter.teardown.Pending?
    case WatchdogFires(_) => s.reporter.watchdog
    case _ => true
  }

  function Apply(s: Socket, step: Step): Socket
    requires Enabled(s, step)
  {
    match step
    case Engine(e, w) => Dispatch(s, e, w)
    case SetAutoReconnect(on) => s.(autoReconnect := on)
    case Bootstrap => Emit(s, Retrying())
    case FetchedTimelock => Emit(s, NOTHING)
    case TerminalReport(status, w) => EmitClose(s, status, w)
    case LogoutFallback(throws) => Reported(s.(errors := s.errors + [LOGGED_OUT]), R.ReportNow(throws))
    case TeardownSettles(throws) => Reported(s, R.TeardownSettles(throws))
    case WatchdogFires(throws) => Reported(s, R.WatchdogFires(throws))
  }

  const INITIAL := Socket(R.INITIAL, [], true, [])

  ghost predicate IsRun(s: Socket, steps: seq<Step>)
    decreases |steps|
  {
    steps == [] || (Enabled(s, steps[0]) && IsRun(Apply(s, steps[0]), steps[1..]))
  }

  ghost function Exec(s: Socket, steps: seq<Step>): Socket
    requires IsRun(s, steps)
    decreases |steps|
  {
    if steps == [] then s else Exec(Apply(s, steps[0]), steps[1..])
  }

  // ---------------------------------------------------------------- what every run keeps

  /** What the contract says of one event, with the status the first claim came with. */
  predicate WellFormed(e: Event, errors: seq<int>) {
    e.ConnectionUpdate? ==>
      var u := e.update;
      && (u.connection == Some(Connecting) ==> C.Clears(u) && !u.lastDisconnect)
      && (u.lastDisconnect ==> u.connection == Some(Close))
      && (u.connection == Some(Close) ==> u.lastDisconnect && errors != [] && u.lastDisconnectStatus == Some(errors[0]))
  }

  /** The close is in the trace exactly when the reporter has published. */
  predicate OneClose(s: Socket) {
    if s.reporter.publishes == [] then forall i :: 0 <= i < |s.trace| ==> !Carries(s.trace[i], Close)
    else exists i :: 0 <= i < |s.trace| && Carries(s.trace[i], Close) && OnlyCloseAt(s.trace, i)
  }

  predicate OnlyCloseAt(t: Trace, i: nat) { forall j :: 0 <= j < |t| && j != i ==> !Carries(t[j], Close) }

  predicate Good(s: Socket) {
    && R.Valid(s.reporter)
    && |s.errors| == s.reporter.asked
    && (forall i :: 0 <= i < |s.trace| ==> WellFormed(s.trace[i], s.errors))
    && OneClose(s)
  }

  lemma EmittingKeeps(s: Socket, e: Event)
    requires Good(s) && !Carries(e, Close) && WellFormed(e, s.errors)
    ensures Good(s.(trace := s.trace + [e]))
  {
    if s.reporter.publishes != [] {
      var i :| 0 <= i < |s.trace| && Carries(s.trace[i], Close) && OnlyCloseAt(s.trace, i);
      assert OnlyCloseAt(s.trace + [e], i) && (s.trace + [e])[i] == s.trace[i];
    }
  }

  lemma ReportKeeps(s: Socket, status: int, e: R.Event)
    requires Good(s) && (e.ReportAfter? || e.ReportNow?)
    ensures Good(Reported(s.(errors := s.errors + [status]), e))
  {
    var s1 := s.(errors := s.errors + [status]);
    assert s.errors != [] ==> s1.errors[0] == s.errors[0];
    PublishKeeps(s1, e);
  }

  lemma PublishKeeps(s: Socket, e: R.Event)
    requires R.Valid(s.reporter) && R.Enabled(s.reporter, e) && OneClose(s)
    requires |s.errors| == R.Apply(s.reporter, e).asked
             && (forall i :: 0 <= i < |s.trace| ==> WellFormed(s.trace[i], s.errors))
    ensures Good(Reported(s, e))
  {
    var next := R.Apply(s.reporter, e);
    if next.publishes != s.reporter.publishes {
      var s' := Reported(s, e);
      assert OnlyCloseAt(s'.trace, |s.trace|) && Carries(s'.trace[|s.trace|], Close);
    }
  }

  lemma StepKeeps(s: Socket, step: Step)
    requires Good(s) && Enabled(s, step)
    ensures Good(Apply(s, step))
  {
    match step
    case Engine(e, w) => DispatchKeeps(s, e, w);
    case SetAutoReconnect(_) =>
    case Bootstrap => EmittingKeeps(s, ConnectionUpdate(NormalizeUpdate(Retrying())));
    case FetchedTimelock => EmittingKeeps(s, ConnectionUpdate(NormalizeUpdate(NOTHING)));
    case TerminalReport(status, w) => ReportKeeps(s, status, R.ReportAfter(w.throwsAtOnce, w.listenerThrows));
    case LogoutFallback(throws) => ReportKeeps(s, LOGGED_OUT, R.ReportNow(throws));
    case TeardownSettles(throws) => PublishKeeps(s, R.TeardownSettles(throws));
    case WatchdogFires(throws) => PublishKeeps(s, R.WatchdogFires(throws));
  }

  lemma DispatchKeeps(s: Socket, e: EngineEvent, w: Weather)
    requires Good(s)
    ensures Good(Dispatch(s, e, w))
  {
    match OutcomeOf(e, s.autoReconnect)
    case Silent =>
    case Emits(event) => EmittingKeeps(s, event);
    case Closes(status) => ReportKeeps(s, status, R.ReportAfter(w.throwsAtOnce, w.listenerThrows));
  }

  lemma {:induction false} RunKeeps(s: Socket, steps: seq<Step>)
    requires Good(s) && IsRun(s, steps)
    ensures Good(Exec(s, steps))
    decreases |steps|
  {
    if steps != [] {
      StepKeeps(s, steps[0]);
      RunKeeps(Apply(s, steps[0]), steps[1..]);
    }
  }

  // ---------------------------------------------------------------- the verdicts

  /** Whatever the engine sends and whenever auto-reconnect is toggled, these four are never violated. */
  method JudgeRun(ghost steps: seq<Step>, trace: Trace) returns (lc2: Status, lc6: Status, lc7: Status, lc8: Status)
    requires IsRun(INITIAL, steps) && trace == Exec(INITIAL, steps).trace
    ensures !lc2.Violated? && !lc6.Violated? && !lc7.Violated? && !lc8.Violated?
  {
    RunKeeps(INITIAL, steps);
    lc2 := C.ConnectingClears(trace);
    lc6 := C.ClosesOnce(trace);
    lc7 := C.DisconnectOnlyOnClose(trace);
    lc8 := C.CloseCarriesStatus(trace);
  }

  /** The published close carries the status of the first error reported, whoever reports later. */
  lemma CloseCarriesFirstError(steps: seq<Step>, i: nat)
    requires IsRun(INITIAL, steps)
    requires i < |Exec(INITIAL, steps).trace| && Carries(Exec(INITIAL, steps).trace[i], Close)
    ensures var s := Exec(INITIAL, steps);
            s.errors != [] && s.trace[i].update.lastDisconnectStatus == Some(s.errors[0])
  {
    RunKeeps(INITIAL, steps);
    var s := Exec(INITIAL, steps);
    assert WellFormed(s.trace[i], s.errors);
  }

  /** While the engine may reconnect, a drop never claims the close; once it may not, every drop does. */
  lemma DropsCloseOnlyWithoutReconnect(e: EngineEvent, autoReconnect: bool)
    requires e.Disconnected? || (e.ConnectFailure? && IsReconnectableConnectFailure(e.reason))
    ensures OutcomeOf(e, autoReconnect).Closes? <==> !autoReconnect
    ensures OutcomeOf(e, autoReconnect) == Updates(Retrying()) <==> autoReconnect
  {
  }
}
