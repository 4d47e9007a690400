/**
 * The order checks of the lifecycle contract, LC-003, LC-009 and LC-011: exactly which runs of the
 * dispatcher violate them, said of the steps of the run and not of the trace it leaves.
 */
module LifecycleOrder {
  import opened Wrappers
  import opened LifecycleTrace
  import opened LifecycleDispatcher
  import C = LifecycleChecks
  import R = TerminalCloseReporter

  // ---------------------------------------------------------------- what a step of a run does

  predicate Connects(step: Step) { step.Engine? && step.e.Connected? }

  predicate FinishesOfflineSync(step: Step) { step.Engine? && step.e.OfflineSyncCompleted? }

  predicate Surfaces(step: Step) { step.Engine? && step.e == Message(true) }

  /** The auto-reconnect flag as step `n` finds it: what it was set to last. */
  function AutoAt(steps: seq<Step>, n: nat): bool
    requires n <= |steps|
  {
    if n == 0 then INITIAL.autoReconnect
    else if steps[n - 1].SetAutoReconnect? then steps[n - 1].on
    else AutoAt(steps, n - 1)
  }

  /** The engine says it will connect again by itself. */
  predicate Retries(e: EngineEvent, auto: bool) {
    e.PairError?
    || (auto && (e.Disconnected? || (e.ConnectFailure? && IsReconnectableConnectFailure(e.reason))
                 || (e.StreamError? && e.code == RATE_LIMITED_STREAM_ERROR)))
  }

  /** The engine says the session is over. */
  predicate Ends(e: EngineEvent, auto: bool) {
    e.LoggedOut? || e.StreamReplaced? || e.ClientOutdated? || e.TemporaryBan? || e.QrCodesExhausted?
    || ((e.Disconnected? || e.ConnectFailure?) && !Retries(e, auto))
  }

  /** The step asks for the close to be reported. */
  predicate Claims(steps: seq<Step>, n: nat)
    requires n < |steps|
  {
    match steps[n]
    case Engine(e, _) => Ends(e, AutoAt(steps, n))
    case TerminalReport(_, _) => true
    case LogoutFallback(_) => true
    case _ => false
  }

  /** And does not wait for a teardown. */
  predicate AtOnce(step: Step) {
    match step
    case Engine(_, w) => w.throwsAtOnce
    case TerminalReport(_, w) => w.throwsAtOnce
    case LogoutFallback(_) => true
    case _ => false
  }

  predicate Settles(step: Step) { step.TeardownSettles? || step.WatchdogFires? }

  ghost predicate ClaimedBefore(steps: seq<Step>, n: nat)
    requires n <= |steps|
  {
    exists k :: 0 <= k < n && Claims(steps, k)
  }

  ghost predicate SettledBefore(steps: seq<Step>, n: nat)
    requires n <= |steps|
  {
    exists k :: 0 <= k < n && Settles(steps[k])
  }

  /** The one step that publishes the close. */
  ghost predicate Publishes(steps: seq<Step>, n: nat)
    requires n < |steps|
  {
    || (Claims(steps, n) && AtOnce(steps[n]) && !ClaimedBefore(steps, n))
    || (Settles(steps[n]) && !SettledBefore(steps, n))
  }

  /** The step sends an update with a connection state. */
  ghost predicate EmitsState(steps: seq<Step>, n: nat)
    requires n < |steps|
  {
    || Connects(steps[n])
    || steps[n].Bootstrap?
    || (steps[n].Engine? && Retries(steps[n].e, AutoAt(steps, n)))
    || Publishes(steps, n)
  }

  // ---------------------------------------------------------------- the states of a run

  /** The socket after `n` steps. */
  ghost function After(s: Socket, steps: seq<Step>, n: nat): Socket
    requires IsRun(s, steps) && n <= |steps|
    decreases n
  {
    if n == 0 then s else After(Apply(s, steps[0]), steps[1..], n - 1)
  }

  lemma {:induction false} AfterNext(s: Socket, steps: seq<Step>, n: nat)
    requires IsRun(s, steps) && n < |steps|
    ensures Enabled(After(s, steps, n), steps[n])
    ensures After(s, steps, n + 1) == Apply(After(s, steps, n), steps[n])
    decreases n
  {
    if n > 0 {
      AfterNext(Apply(s, steps[0]), steps[1..], n - 1);
    }
  }

  lemma {:induction false} AfterAll(s: Socket, steps: seq<Step>)
    requires IsRun(s, steps)
    ensures After(s, steps, |steps|) == Exec(s, steps)
    decreases |steps|
  {
    if steps != [] {
      AfterAll(Apply(s, steps[0]), steps[1..]);
    }
  }

  ghost function At(steps: seq<Step>, n: nat): Socket
    requires IsRun(INITIAL, steps) && n <= |steps|
  {
    After(INITIAL, steps, n)
  }

  /** The socket is what the steps so far make of it. */
  ghost predicate Tells(s: Socket, steps: seq<Step>, n: nat)
    requires n <= |steps|
  {
    && Good(s)
    && s.autoReconnect == AutoAt(steps, n)
    && (s.reporter.claimed > 0 <==> ClaimedBefore(steps, n))
    && (SettledBefore(steps, n) ==> s.reporter.done)
    && (s.reporter.done && s.reporter.teardown.Pending? ==> SettledBefore(steps, n))
    && (s.reporter.watchdog ==> !s.reporter.done)
  }

  lemma ClaimedGrows(steps: seq<Step>, n: nat)
    requires n < |steps|
    ensures ClaimedBefore(steps, n + 1) <==> ClaimedBefore(steps, n) || Claims(steps, n)
    ensures SettledBefore(steps, n + 1) <==> SettledBefore(steps, n) || Settles(steps[n])
  {
  }

  lemma EngineOutcome(e: EngineEvent, auto: bool)
    ensures OutcomeOf(e, auto).Closes? <==> Ends(e, auto)
    ensures OutcomeOf(e, auto) == Updates(Retrying()) <==> Retries(e, auto)
  {
  }

  lemma EngineTells(s: Socket, steps: seq<Step>, n: nat)
    requires n < |steps| && Tells(s, steps, n) && steps[n].Engine?
    ensures Tells(Apply(s, steps[n]), steps, n + 1)
  {
    StepKeeps(s, steps[n]);
    ClaimedGrows(steps, n);
    EngineOutcome(steps[n].e, s.autoReconnect);
  }

  lemma StepTells(s: Socket, steps: seq<Step>, n: nat)
    requires n < |steps| && Tells(s, steps, n) && Enabled(s, steps[n])
    ensures Tells(Apply(s, steps[n]), steps, n + 1)
  {
    if steps[n].Engine? {
      EngineTells(s, steps, n);
    } else {
      StepKeeps(s, steps[n]);
      ClaimedGrows(steps, n);
    }
  }

  lemma {:induction false} StateTells(steps: seq<Step>, n: nat)
    requires IsRun(INITIAL, steps) && n <= |steps|
    ensures Tells(At(steps, n), steps, n)
  {
    if n > 0 {
      StateTells(steps, n - 1);
      AfterNext(INITIAL, steps, n - 1);
      StepTells(At(steps, n - 1), steps, n - 1);
    }
  }

  // ---------------------------------------------------------------- steps and the events they leave

  /** A step leaves one event or none; which kind, the steps say. */
  ghost predicate Leaves(steps: seq<Step>, n: nat, added: Trace)
    requires n < |steps|
  {
    && |added| <= 1
    && (EmitsState(steps, n) <==> added != [] && Stateful(added[0]))
    && (Connects(steps[n]) <==> added != [] && Carries(added[0], Open))
    && (FinishesOfflineSync(steps[n]) <==> added != [] && Reports(added[0]))
    && (Surfaces(steps[n]) <==> added != [] && added[0].MessagesUpsert?)
  }

  lemma EngineLeaves(s: Socket, steps: seq<Step>, n: nat) returns (added: Trace)
    requires n < |steps| && Tells(s, steps, n) && steps[n].Engine?
    ensures Apply(s, steps[n]).trace == s.trace + added && Leaves(steps, n, added)
  {
    EngineOutcome(steps[n].e, s.autoReconnect);
    if Claims(steps, n) {
      added := ClaimLeaves(s, steps, n);
    } else {
      added := Apply(s, steps[n]).trace[|s.trace|..];
    }
  }

  /** How the reporter hears of a claim. */
  function ReportOf(step: Step): R.Event
    requires step.Engine? || step.TerminalReport? || step.LogoutFallback?
  {
    match step
    case Engine(_, w) => R.ReportAfter(w.throwsAtOnce, w.listenerThrows)
    case TerminalReport(_, w) => R.ReportAfter(w.throwsAtOnce, w.listenerThrows)
    case LogoutFallback(throws) => R.ReportNow(throws)
  }

  function StatusOf(step: Step, auto: bool): int {
    match step
    case Engine(e, _) => if OutcomeOf(e, auto).Closes? then OutcomeOf(e, auto).status else LOGGED_OUT
    case TerminalReport(status, _) => status
    case _ => LOGGED_OUT
  }

  function CloseEvent(status: int): Event { ConnectionUpdate(NormalizeUpdate(CloseOf(status))) }

  /** A report leaves the close when it is the first and does not wait. */
  lemma ReportLeaves(s: Socket, status: int, e: R.Event)
    requires Good(s) && (e.ReportAfter? || e.ReportNow?)
    ensures var s' := Reported(s.(errors := s.errors + [status]), e);
            s'.trace == s.trace + (if s.reporter.claimed == 0 && (e.ReportNow? || e.throwsAtOnce)
                                   then [CloseEvent(status)] else [])
  {
  }

  lemma ClaimApplies(s: Socket, steps: seq<Step>, n: nat)
    requires n < |steps| && Tells(s, steps, n) && Claims(steps, n)
    ensures Apply(s, steps[n])
         == Reported(s.(errors := s.errors + [StatusOf(steps[n], s.autoReconnect)]), ReportOf(steps[n]))
  {
    if steps[n].Engine? {
      EngineOutcome(steps[n].e, s.autoReconnect);
    }
  }

  lemma ClaimLeaves(s: Socket, steps: seq<Step>, n: nat) returns (added: Trace)
    requires n < |steps| && Tells(s, steps, n) && Claims(steps, n)
    ensures Apply(s, steps[n]).trace == s.trace + added && Leaves(steps, n, added)
  {
    var status := StatusOf(steps[n], s.autoReconnect);
    ClaimApplies(s, steps, n);
    ReportLeaves(s, status, ReportOf(steps[n]));
    added := if AtOnce(steps[n]) && !ClaimedBefore(steps, n) then [CloseEvent(status)] else [];
    hide Apply, Reported;
  }

  lemma SettlingLeaves(s: Socket, steps: seq<Step>, n: nat) returns (added: Trace)
    requires n < |steps| && Tells(s, steps, n) && Enabled(s, steps[n]) && Settles(steps[n])
    ensures Apply(s, steps[n]).trace == s.trace + added && Leaves(steps, n, added)
  {
    added := Apply(s, steps[n]).trace[|s.trace|..];
  }

  lemma StepLeaves(s: Socket, steps: seq<Step>, n: nat) returns (added: Trace)
    requires n < |steps| && Tells(s, steps, n) && Enabled(s, steps[n])
    ensures Apply(s, steps[n]).trace == s.trace + added && Leaves(steps, n, added)
  {
    if steps[n].Engine? {
      added := EngineLeaves(s, steps, n);
    } else if Claims(steps, n) {
      added := ClaimLeaves(s, steps, n);
    } else if Settles(steps[n]) {
      added := SettlingLeaves(s, steps, n);
    } else {
      added := Apply(s, steps[n]).trace[|s.trace|..];
    }
  }

  /** Where in the trace the event of a step is, if it leaves one. */
  ghost function Place(steps: seq<Step>, n: nat): nat
    requires IsRun(INITIAL, steps) && n <= |steps|
  {
    |At(steps, n).trace|
  }

  ghost function TraceOf(steps: seq<Step>): Trace
    requires IsRun(INITIAL, steps)
  {
    Exec(INITIAL, steps).trace
  }

  lemma LeavesAt(steps: seq<Step>, n: nat) returns (added: Trace)
    requires IsRun(INITIAL, steps) && n < |steps|
    ensures At(steps, n + 1).trace == At(steps, n).trace + added && Leaves(steps, n, added)
  {
    StateTells(steps, n);
    AfterNext(INITIAL, steps, n);
    added := StepLeaves(At(steps, n), steps, n);
  }

  /** The trace only grows. */
  lemma {:induction false} TraceGrows(steps: seq<Step>, n: nat, m: nat)
    requires IsRun(INITIAL, steps) && n <= m <= |steps|
    ensures At(steps, n).trace <= At(steps, m).trace
    decreases m
  {
    if n < m {
      TraceGrows(steps, n, m - 1);
      var added := LeavesAt(steps, m - 1);
    }
  }

  /** The event of a step is where the trace ended before it, and is of the step's kind. */
  lemma EventAt(steps: seq<Step>, n: nat)
    requires IsRun(INITIAL, steps) && n < |steps|
    ensures Place(steps, n) <= Place(steps, n + 1) <= |TraceOf(steps)|
    ensures Leaves(steps, n, TraceOf(steps)[Place(steps, n)..Place(steps, n + 1)])
  {
    var added := LeavesAt(steps, n);
    TraceGrows(steps, n + 1, |steps|);
    AfterAll(INITIAL, steps);
    assert TraceOf(steps)[Place(steps, n)..Place(steps, n + 1)] == added;
  }

  /** Every event of the trace was left by a step. */
  lemma {:induction false} StepOf(steps: seq<Step>, p: nat, m: nat) returns (n: nat)
    requires IsRun(INITIAL, steps) && m <= |steps| && p < Place(steps, m)
    ensures n < m && Place(steps, n) == p && Place(steps, n + 1) == p + 1
    decreases m
  {
    var added := LeavesAt(steps, m - 1);
    if p < Place(steps, m - 1) {
      n := StepOf(steps, p, m - 1);
    } else {
      n := m - 1;
    }
  }

  lemma StepBehind(steps: seq<Step>, p: nat) returns (n: nat)
    requires IsRun(INITIAL, steps) && p < |TraceOf(steps)|
    ensures n < |steps| && Place(steps, n) == p && Place(steps, n + 1) == p + 1
    ensures Leaves(steps, n, [TraceOf(steps)[p]])
  {
    AfterAll(INITIAL, steps);
    n := StepOf(steps, p, |steps|);
    EventAt(steps, n);
    assert TraceOf(steps)[p..p + 1] == [TraceOf(steps)[p]];
  }

  /** A step that leaves an event leaves it there. */
  lemma EventOf(steps: seq<Step>, n: nat)
    requires IsRun(INITIAL, steps) && n < |steps|
    requires EmitsState(steps, n) || FinishesOfflineSync(steps[n]) || Surfaces(steps[n])
    ensures Place(steps, n) < |TraceOf(steps)| && Place(steps, n + 1) == Place(steps, n) + 1
    ensures Leaves(steps, n, [TraceOf(steps)[Place(steps, n)]])
  {
    EventAt(steps, n);
    var p := Place(steps, n);
    assert TraceOf(steps)[p..p + 1] == [TraceOf(steps)[p]];
  }

  /** Later steps leave later events. */
  lemma PlacesAscend(steps: seq<Step>, n: nat, m: nat)
    requires IsRun(INITIAL, steps) && n <= m <= |steps|
    ensures Place(steps, n) <= Place(steps, m)
  {
    TraceGrows(steps, n, m);
  }

  /** Between two steps and between their events, the same states are sent. */
  lemma SameStatesBetween(steps: seq<Step>, i: nat, j: nat)
    requires IsRun(INITIAL, steps) && i < j <= |steps|
    requires Place(steps, i + 1) == Place(steps, i) + 1
    ensures Place(steps, i) < Place(steps, j) <= |TraceOf(steps)|
    ensures (forall k :: i < k < j ==> !EmitsState(steps, k))
       <==> (forall p :: Place(steps, i) < p < Place(steps, j) ==> !Stateful(TraceOf(steps)[p]))
  {
    PlacesAscend(steps, i + 1, j);
    PlacesAscend(steps, j, |steps|);
    AfterAll(INITIAL, steps);
    if k :| i < k < j && EmitsState(steps, k) {
      EventOf(steps, k);
      PlacesAscend(steps, i + 1, k);
      PlacesAscend(steps, k + 1, j);
    }
    if p :| Place(steps, i) < p < Place(steps, j) && Stateful(TraceOf(steps)[p]) {
      var k := StepBehind(steps, p);
      StepBetween(steps, i, k, j);
    }
  }

  lemma StepBetween(steps: seq<Step>, i: nat, k: nat, j: nat)
    requires IsRun(INITIAL, steps) && i <= |steps| && k <= |steps| && j <= |steps|
    requires Place(steps, i) < Place(steps, k) < Place(steps, j)
    ensures i < k < j
  {
    if k <= i {
      PlacesAscend(steps, k, i);
    }
    if j <= k {
      PlacesAscend(steps, j, k);
    }
  }

  // ---------------------------------------------------------------- the order the contract asks of the engine

  /** The engine connects at `i` and again at `j`, with no other state sent between. */
  ghost predicate ConnectsAgain(steps: seq<Step>, i: int, j: int) {
    0 <= i < j < |steps| && Connects(steps[i]) && Connects(steps[j])
    && forall k :: i < k < j ==> !EmitsState(steps, k)
  }

  ghost predicate ConnectsLast(steps: seq<Step>, i: int, n: nat)
    requires n <= |steps|
  {
    0 <= i < n && Connects(steps[i]) && forall k :: i < k < n ==> !EmitsState(steps, k)
  }

  /** The last state sent before step `n` is that of a connected engine. */
  ghost predicate OpenBefore(steps: seq<Step>, n: nat)
    requires n <= |steps|
  {
    exists i :: ConnectsLast(steps, i, n)
  }

  lemma RepublishedBehind(steps: seq<Step>, i: nat, j: nat)
    requires IsRun(INITIAL, steps) && i < |steps| && j < |steps|
    requires Place(steps, i + 1) == Place(steps, i) + 1
    requires Republished(TraceOf(steps), Place(steps, i), Place(steps, j))
    requires Connects(steps[i]) && Connects(steps[j])
    ensures ConnectsAgain(steps, i, j)
  {
    if j <= i {
      PlacesAscend(steps, j, i);
    }
    SameStatesBetween(steps, i, j);
  }

  /** LC-003 fails in the runs whose engine connects twice with no other state in between, and in no others. */
  lemma RepublishedExactly(steps: seq<Step>)
    requires IsRun(INITIAL, steps)
    ensures (exists p, q :: Republished(TraceOf(steps), p, q)) <==> (exists i, j :: ConnectsAgain(steps, i, j))
  {
    if p, q :| Republished(TraceOf(steps), p, q) {
      var i := StepBehind(steps, p);
      var j := StepBehind(steps, q);
      RepublishedBehind(steps, i, j);
    }
    if i, j :| ConnectsAgain(steps, i, j) {
      EventOf(steps, i);
      EventOf(steps, j);
      SameStatesBetween(steps, i, j);
      assert Republished(TraceOf(steps), Place(steps, i), Place(steps, j));
    }
  }

  lemma OpenBehind(steps: seq<Step>, n: nat, d: nat)
    requires IsRun(INITIAL, steps) && n < |steps| && d < Place(steps, n) < |TraceOf(steps)|
    requires Decides(TraceOf(steps), d, Place(steps, n)) && Carries(TraceOf(steps)[d], Open)
    ensures OpenBefore(steps, n)
  {
    var i := StepBehind(steps, d);
    if n <= i {
      PlacesAscend(steps, n, i);
    }
    SameStatesBetween(steps, i, n);
    assert ConnectsLast(steps, i, n);
  }

  /** The state in effect at such an event is the one the steps before it say. */
  lemma OpenAtExactly(steps: seq<Step>, n: nat)
    requires IsRun(INITIAL, steps) && n < |steps| && (FinishesOfflineSync(steps[n]) || Surfaces(steps[n]))
    ensures Place(steps, n) < |TraceOf(steps)|
    ensures OpenAt(TraceOf(steps), Place(steps, n)) <==> OpenBefore(steps, n)
  {
    EventOf(steps, n);
    var t, p := TraceOf(steps), Place(steps, n);
    assert !Stateful(t[p]);
    if OpenAt(t, p) {
      var d :| Decides(t, d, p) && Carries(t[d], Open);
      OpenBehind(steps, n, d);
    }
    if OpenBefore(steps, n) {
      var i :| ConnectsLast(steps, i, n);
      EventOf(steps, i);
      SameStatesBetween(steps, i, n);
      assert Decides(t, Place(steps, i), p);
    }
  }

  /** LC-009 fails in the runs where the offline sync ends while the last state sent, if any, is not `open`. */
  lemma PendingExactly(steps: seq<Step>)
    requires IsRun(INITIAL, steps)
    ensures (exists p :: 0 <= p < |TraceOf(steps)| && Reports(TraceOf(steps)[p]) && !OpenAt(TraceOf(steps), p))
       <==> (exists n :: 0 <= n < |steps| && FinishesOfflineSync(steps[n]) && !OpenBefore(steps, n))
  {
    var t := TraceOf(steps);
    if p :| 0 <= p < |t| && Reports(t[p]) && !OpenAt(t, p) {
      var n := StepBehind(steps, p);
      OpenAtExactly(steps, n);
    }
    if n :| 0 <= n < |steps| && FinishesOfflineSync(steps[n]) && !OpenBefore(steps, n) {
      EventOf(steps, n);
      OpenAtExactly(steps, n);
    }
  }

  /** LC-011 fails in the runs where a message surfaces while the last state sent, if any, is not `open`. */
  lemma MessagesExactly(steps: seq<Step>)
    requires IsRun(INITIAL, steps)
    ensures (exists p :: 0 <= p < |TraceOf(steps)| && TraceOf(steps)[p].MessagesUpsert? && !OpenAt(TraceOf(steps), p))
       <==> (exists n :: 0 <= n < |steps| && Surfaces(steps[n]) && !OpenBefore(steps, n))
  {
    var t := TraceOf(steps);
    if p :| 0 <= p < |t| && t[p].MessagesUpsert? && !OpenAt(t, p) {
      var n := StepBehind(steps, p);
      OpenAtExactly(steps, n);
    }
    if n :| 0 <= n < |steps| && Surfaces(steps[n]) && !OpenBefore(steps, n) {
      EventOf(steps, n);
      OpenAtExactly(steps, n);
    }
  }

  /** The verdicts of the three checks on any run, read off its steps. */
  method JudgeOrder(ghost steps: seq<Step>, trace: Trace) returns (lc3: Status, lc9: Status, lc11: Status)
    requires IsRun(INITIAL, steps) && trace == TraceOf(steps)
    ensures lc3.Violated? <==> exists i, j :: ConnectsAgain(steps, i, j)
    ensures lc9.Violated? <==> exists n :: 0 <= n < |steps| && FinishesOfflineSync(steps[n]) && !OpenBefore(steps, n)
    ensures lc11.Violated? <==> exists n :: 0 <= n < |steps| && Surfaces(steps[n]) && !OpenBefore(steps, n)
  {
    RepublishedExactly(steps);
    PendingExactly(steps);
    MessagesExactly(steps);
    lc3 := C.OpenNotRepublished(trace);
    lc9 := C.PendingOnlyWhileOpen(trace);
    lc11 := C.MessagesOnlyWhileOpen(trace);
  }

  function ConnectedTwice(w: Weather): seq<Step> { [Engine(Connected, w), Engine(Connected, w)] }

  function SyncedUnconnected(w: Weather): seq<Step> { [Engine(OfflineSyncCompleted, w)] }

  function SurfacedUnconnected(w: Weather): seq<Step> { [Engine(Message(true), w)] }

  /** So the dispatcher alone keeps none of the three: one event of the engine out of place breaks each. */
  lemma OrderIsTheEngines(w: Weather)
    ensures IsRun(INITIAL, ConnectedTwice(w)) && exists p, q :: Republished(TraceOf(ConnectedTwice(w)), p, q)
    ensures IsRun(INITIAL, SyncedUnconnected(w))
    ensures var t := TraceOf(SyncedUnconnected(w));
            exists p :: 0 <= p < |t| && Reports(t[p]) && !OpenAt(t, p)
    ensures IsRun(INITIAL, SurfacedUnconnected(w))
    ensures var t := TraceOf(SurfacedUnconnected(w));
            exists p :: 0 <= p < |t| && t[p].MessagesUpsert? && !OpenAt(t, p)
  {
    assert ConnectsAgain(ConnectedTwice(w), 0, 1);
    RepublishedExactly(ConnectedTwice(w));
    assert FinishesOfflineSync(SyncedUnconnected(w)[0]) && !OpenBefore(SyncedUnconnected(w), 0);
    PendingExactly(SyncedUnconnected(w));
    assert Surfaces(SurfacedUnconnected(w)[0]) && !OpenBefore(SurfacedUnconnected(w), 0);
    MessagesExactly(SurfacedUnconnected(w));
  }
}
