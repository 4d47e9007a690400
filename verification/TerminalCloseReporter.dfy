/**
 * The terminal close is reported once and never not at all
 * (src/Socket/terminal-close-reporter.ts).
 *
 * `Apply` gives the reporter as a value; the class has the source's fields. A claim is known by
 * the number of the call that made it. A teardown may settle either way, throw before returning a
 * promise, or hang; a listener may throw from inside `publish`.
 */
module TerminalCloseReporter {
  datatype Teardown = NotCalled | Pending | Over

  datatype Report = Report(
    claimed: nat,
    promised: bool,         // publishedPromise is assigned
    settled: bool,         // publishedPromise has resolved
    done: bool,            // the `done` of the claim's makeOnce
    watchdog: bool,        // the timer is armed
    teardown: Teardown,
    winner: nat,           // the call whose claim was accepted
    asked: nat,            // calls of reportAfter and reportNow so far
    publishes: seq<nat>,   // the calls whose `publish` ran
    contained: nat)        // listener errors caught

  datatype Event =
    | ReportAfter(throwsAtOnce: bool, listenerThrows: bool)
    | ReportNow(listenerThrows: bool)
    | TeardownSettles(listenerThrows: bool)  // resolved or rejected
    | WatchdogFires(listenerThrows: bool)

  const INITIAL := Report(0, false, false, false, false, NotCalled, 0, 0, [], 0)

  predicate Enabled(r: Report, e: Event) {
    match e
    case ReportAfter(_, _) => true
    case ReportNow(_) => true
    case TeardownSettles(_) => r.teardown.Pending?
    case WatchdogFires(_) => r.watchdog
  }

  /** The closure `makeOnce` returns. */
  function PublishOnce(r: Report, listenerThrows: bool): Report {
    if r.done then r
    else r.(done := true, settled := true, publishes := r.publishes + [r.winner],
            contained := r.contained + (if listenerThrows then 1 else 0))
  }

  /** `claim()`, and the fresh promise the accepted claim stores. */
  function Claim(r: Report): Report {
    if r.claimed > 0 then r.(asked := r.asked + 1)
    else r.(asked := r.asked + 1, claimed := 1, winner := r.asked, promised := true, settled := false, done := false)
  }

  function Finish(r: Report, listenerThrows: bool): Report {
    PublishOnce(r.(watchdog := false, teardown := Over), listenerThrows)
  }

  function Apply(r: Report, e: Event): Report
    requires Enabled(r, e)
  {
    match e
    case ReportAfter(throwsAtOnce, listenerThrows) =>
      var r1 := Claim(r);
      if r.claimed > 0 then r1
      else if throwsAtOnce then Finish(r1.(watchdog := true, teardown := Pending), listenerThrows)
      else r1.(watchdog := true, teardown := Pending)
    case ReportNow(listenerThrows) =>
      if r.claimed > 0 then Claim(r) else PublishOnce(Claim(r), listenerThrows)
    case TeardownSettles(listenerThrows) => Finish(r, listenerThrows)
    case WatchdogFires(listenerThrows) => PublishOnce(r.(watchdog := false), listenerThrows)
  }

  predicate Valid(r: Report) {
    && r.claimed <= 1
    && (r.claimed == 0 ==> r == INITIAL)
    && (r.claimed == 1 ==> r.promised && r.winner == 0 && r.asked > 0)
    && r.publishes == (if r.done then [r.winner] else [])
    && r.settled == r.done
    && (r.watchdog ==> r.teardown.Pending?)
    && (r.claimed == 1 && !r.done ==> r.watchdog)
  }

  ghost predicate IsRun(r: Report, events: seq<Event>)
    decreases |events|
  {
    events == [] || (Enabled(r, events[0]) && IsRun(Apply(r, events[0]), events[1..]))
  }

  ghost function Exec(r: Report, events: seq<Event>): Report
    requires IsRun(r, events)
    decreases |events|
  {
    if events == [] then r else Exec(Apply(r, events[0]), events[1..])
  }

  lemma {:induction false} RunKeepsValid(r: Report, events: seq<Event>)
    requires Valid(r) && IsRun(r, events)
    ensures Valid(Exec(r, events))
    ensures r.done ==> Exec(r, events).publishes == r.publishes
    decreases |events|
  {
    if events != [] {
      RunKeepsValid(Apply(r, events[0]), events[1..]);
    }
  }

  /**
   * Whatever the order of teardown settling, throwing or hanging, the watchdog, throwing listeners
   * and later claims: at most one publish runs, it is the first claimant's, and it has run as soon
   * as either the teardown is over or the watchdog has fired. `published()` resolves with it.
   */
  lemma ReportedExactlyOnce(events: seq<Event>)
    requires IsRun(INITIAL, events)
    ensures var r := Exec(INITIAL, events);
            && |r.publishes| <= 1
            && (r.publishes != [] ==> r.publishes == [0])
            && (r.asked > 0 && (!r.watchdog || !r.teardown.Pending?) ==> r.publishes == [0])
            && (r.asked > 0 ==> r.claimed == 1 && (r.settled <==> r.publishes == [0]))
  {
    RunKeepsValid(INITIAL, events);
  }

  class Reporter {
    var claimed: nat
    var publishedPromise: bool
    var promiseSettled: bool
    var done: bool
    var watchdogArmed: bool
    var contained: nat
    ghost var teardown: Teardown
    ghost var winner: nat
    ghost var asked: nat
    ghost var publishes: seq<nat>

    ghost function View(): Report
      reads this
    {
      Report(claimed, publishedPromise, promiseSettled, done, watchdogArmed, teardown, winner, asked, publishes,
             contained)
    }

    constructor ()
      ensures View() == INITIAL && Valid(View())
    {
      claimed, publishedPromise, promiseSettled, done := 0, false, false, false;
      watchdogArmed, contained, teardown, winner, asked, publishes := false, 0, NotCalled, 0, 0, [];
    }

    method ClaimReport() returns (accepted: bool)
      modifies this
      ensures View() == Claim(old(View()))
      ensures accepted <==> old(claimed) == 0
    {
      accepted := claimed == 0;
      if accepted {
        claimed := claimed + 1;
        publishedPromise, promiseSettled, done := true, false, false;
        winner := asked;
      }
      asked := asked + 1;
    }

    /** `settle()` is reached whether or not the listener threw. */
    method RunPublishOnce(listenerThrows: bool)
      modifies this
      ensures View() == PublishOnce(old(View()), listenerThrows)
    {
      if done {
        return;
      }
      done := true;
      publishes := publishes + [winner];
      if listenerThrows {
        contained := contained + 1;
      }
      promiseSettled := true;
    }

    method StartReport(throwsAtOnce: bool, listenerThrows: bool)
      requires Valid(View())
      modifies this
      ensures Valid(View()) && View() == Apply(old(View()), ReportAfter(throwsAtOnce, listenerThrows))
    {
      var accepted := ClaimReport();
      if !accepted {
        return;
      }
      watchdogArmed := true;
      teardown := Pending;
      if throwsAtOnce {
        SettleTeardown(listenerThrows);
      }
    }

    method StartReportNow(listenerThrows: bool)
      requires Valid(View())
      modifies this
      ensures Valid(View()) && View() == Apply(old(View()), ReportNow(listenerThrows))
    {
      var accepted := ClaimReport();
      if accepted {
        RunPublishOnce(listenerThrows);
      }
    }

    method SettleTeardown(listenerThrows: bool)
      requires Valid(View()) && teardown.Pending?
      modifies this
      ensures Valid(View()) && View() == Apply(old(View()), TeardownSettles(listenerThrows))
    {
      watchdogArmed := false;
      teardown := Over;
      RunPublishOnce(listenerThrows);
    }

    method FireWatchdog(listenerThrows: bool)
      requires Valid(View()) && watchdogArmed
      modifies this
      ensures Valid(View()) && View() == Apply(old(View()), WatchdogFires(listenerThrows))
    {
      watchdogArmed := false;
      RunPublishOnce(listenerThrows);
    }

    /** `published()` hands back a promise that has already resolved. */
    method PublishedNow() returns (resolved: bool)
      requires Valid(View())
      ensures resolved <==> asked == 0 || publishes == [0]
    {
      resolved := !publishedPromise || promiseSettled;
    }
  }
}
