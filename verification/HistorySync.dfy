/**
 * History sync status (src/Socket/events-core.ts): a RECENT sync ends in one of `complete` and
 * `paused`, and the pause timer is the only thing that can still end it.
 *
 * `Apply` gives the dispatcher and its timer as a value; the class has the source's fields.
 */
module HistorySync {
  import opened Wrappers

  datatype SyncType = InitialBootstrap | Recent | OnDemand | OtherType

  type TimerId = nat

  /** `PublishedPaused` remembers which timer published it. */
  datatype Emission =
    | PublishedComplete(syncType: SyncType)
    | PublishedPaused(timer: TimerId)
    | PublishedSet(isLatest: Option<bool>, progress: Option<int>)
    | PublishedChats

  datatype Chunk = Chunk(syncType: SyncType, isFinalBatch: Option<bool>, progress: Option<int>, chats: nat)

  datatype History = History(
    initialBootstrapComplete: bool,
    recentSyncComplete: bool,
    pausedTimeout: Option<TimerId>,
    armed: set<TimerId>,      // timers the runtime still owes a callback
    cleared: set<TimerId>,    // timers cancelled before they fired
    next: TimerId,
    waiting: bool,            // an unfinished RECENT sync, and no cleanup since
    log: seq<Emission>)

  datatype Event = OnChunk(chunk: Chunk) | TimerFires(timer: TimerId) | Cleanup

  const INITIAL := History(false, false, None, {}, {}, 0, false, [])

  function ClearPausedTimeout(h: History): History {
    if h.pausedTimeout.None? then h
    else
      h.(pausedTimeout := None, armed := h.armed - {h.pausedTimeout.value},
         cleared := h.cleared + {h.pausedTimeout.value})
  }

  predicate IsFinal(c: Chunk) { c.isFinalBatch != Some(false) }

  function BootstrapStatus(h: History, c: Chunk): History {
    if IsFinal(c) && c.syncType == InitialBootstrap && !h.initialBootstrapComplete
    then h.(initialBootstrapComplete := true, log := h.log + [PublishedComplete(InitialBootstrap)])
    else h
  }

  function RecentStatus(h: History, c: Chunk): History {
    if IsFinal(c) && c.syncType == Recent && !h.recentSyncComplete then
      var h1 := ClearPausedTimeout(h);
      if c.progress == Some(100) then
        h1.(recentSyncComplete := true, waiting := false, log := h1.log + [PublishedComplete(Recent)])
      else
        h1.(pausedTimeout := Some(h1.next), armed := h1.armed + {h1.next}, next := h1.next + 1, waiting := true)
    else h
  }

  function Data(c: Chunk): seq<Emission> {
    [PublishedSet(if c.syncType == OnDemand then None else Some(c.syncType == InitialBootstrap && IsFinal(c)),
                  if IsFinal(c) then c.progress else None)]
    + (if c.chats > 0 then [PublishedChats] else [])
  }

  predicate Enabled(h: History, e: Event) { e.TimerFires? ==> e.timer in h.armed }

  function Apply(h: History, e: Event): History
    requires Enabled(h, e)
  {
    match e
    case OnChunk(c) =>
      var h1 := RecentStatus(BootstrapStatus(h, c), c);
      h1.(log := h1.log + Data(c))
    case TimerFires(timer) =>
      var h1 := h.(armed := h.armed - {timer}, pausedTimeout := None, waiting := false);
      if h.recentSyncComplete then h1
      else h1.(recentSyncComplete := true, log := h.log + [PublishedPaused(timer)])
    case Cleanup => ClearPausedTimeout(h).(waiting := false)
  }

  // ---------------------------------------------------------------- what every run keeps

  predicate EndsRecent(e: Emission) { e == PublishedComplete(Recent) || e.PublishedPaused? }

  predicate CompletesBootstrap(e: Emission) { e == PublishedComplete(InitialBootstrap) }

  /** How often RECENT has ended in this log. */
  function RecentEnds(log: seq<Emission>): nat {
    if log == [] then 0 else RecentEnds(log[..|log| - 1]) + (if EndsRecent(log[|log| - 1]) then 1 else 0)
  }

  /** How often INITIAL_BOOTSTRAP has completed in it. */
  function BootstrapEnds(log: seq<Emission>): nat {
    if log == [] then 0 else BootstrapEnds(log[..|log| - 1]) + (if CompletesBootstrap(log[|log| - 1]) then 1 else 0)
  }

  predicate TimersOk(h: History) {
    && h.armed == (if h.pausedTimeout.Some? then {h.pausedTimeout.value} else {})
    && (h.recentSyncComplete ==> h.pausedTimeout.None?)
    && (h.waiting ==> h.pausedTimeout.Some?)
    && (h.pausedTimeout.Some? ==> h.pausedTimeout.value < h.next && h.pausedTimeout.value !in h.cleared)
    && (forall t :: t in h.cleared ==> t < h.next)
  }

  predicate LogOk(h: History) {
    && RecentEnds(h.log) == (if h.recentSyncComplete then 1 else 0)
    && BootstrapEnds(h.log) == (if h.initialBootstrapComplete then 1 else 0)
    && PausesSpent(h)
  }

  /** A timer that has fired, and was not cleared before. */
  predicate Spent(h: History, timer: TimerId) {
    timer < h.next && Some(timer) != h.pausedTimeout && timer !in h.cleared
  }

  predicate PausesSpent(h: History) {
    forall i :: 0 <= i < |h.log| && h.log[i].PublishedPaused? ==> Spent(h, h.log[i].timer)
  }

  predicate Valid(h: History) { TimersOk(h) && LogOk(h) }

  lemma EndsOfOne(log: seq<Emission>, e: Emission)
    ensures RecentEnds(log + [e]) == RecentEnds(log) + (if EndsRecent(e) then 1 else 0)
    ensures BootstrapEnds(log + [e]) == BootstrapEnds(log) + (if CompletesBootstrap(e) then 1 else 0)
  {
    assert (log + [e])[..|log|] == log;
  }

  ghost predicate StaySpent(h: History, h': History) { forall timer :: Spent(h, timer) ==> Spent(h', timer) }

  lemma PausesStay(h: History, h': History)
    requires PausesSpent(h) && StaySpent(h, h') && h'.log == h.log
    ensures PausesSpent(h')
  {
  }

  lemma PausesGrow(h: History, h': History, e: Emission)
    requires PausesSpent(h) && StaySpent(h, h') && h'.log == h.log + [e]
    requires e.PublishedPaused? ==> Spent(h', e.timer)
    ensures PausesSpent(h')
  {
  }

  lemma ClearKeepsValid(h: History)
    requires Valid(h)
    ensures Valid(ClearPausedTimeout(h).(waiting := false)) && ClearPausedTimeout(h).pausedTimeout.None?
    ensures LogOk(ClearPausedTimeout(h))
  {
    PausesStay(h, ClearPausedTimeout(h));
    PausesStay(h, ClearPausedTimeout(h).(waiting := false));
  }

  lemma BootstrapKeepsValid(h: History, c: Chunk)
    requires Valid(h)
    ensures Valid(BootstrapStatus(h, c))
  {
    var h' := BootstrapStatus(h, c);
    if h' != h {
      EndsOfOne(h.log, PublishedComplete(InitialBootstrap));
      PausesGrow(h, h', PublishedComplete(InitialBootstrap));
    }
  }

  lemma RecentKeepsTimers(h: History, c: Chunk)
    requires TimersOk(h)
    ensures TimersOk(RecentStatus(h, c))
  {
  }

  lemma RecentKeepsLog(h: History, c: Chunk)
    requires Valid(h)
    ensures LogOk(RecentStatus(h, c))
  {
    var h1, h' := ClearPausedTimeout(h), RecentStatus(h, c);
    ClearKeepsValid(h);
    if h' != h {
      if c.progress == Some(100) {
        EndsOfOne(h1.log, PublishedComplete(Recent));
        PausesGrow(h1, h', PublishedComplete(Recent));
      } else {
        PausesStay(h1, h');
      }
    }
  }

  /** An emission that ends nothing. */
  lemma LoggingKeepsValid(h: History, e: Emission)
    requires Valid(h) && !EndsRecent(e) && !CompletesBootstrap(e)
    ensures Valid(h.(log := h.log + [e]))
  {
    EndsOfOne(h.log, e);
    PausesGrow(h, h.(log := h.log + [e]), e);
  }

  lemma DataKeepsValid(h: History, c: Chunk)
    requires Valid(h)
    ensures Valid(h.(log := h.log + Data(c)))
  {
    var published := Data(c)[0];
    LoggingKeepsValid(h, published);
    if c.chats > 0 {
      LoggingKeepsValid(h.(log := h.log + [published]), PublishedChats);
      assert h.log + Data(c) == h.log + [published] + [PublishedChats];
    } else {
      assert h.log + Data(c) == h.log + [published];
    }
  }

  lemma ChunkKeepsValid(h: History, c: Chunk)
    requires Valid(h)
    ensures Valid(Apply(h, OnChunk(c)))
  {
    var h1 := BootstrapStatus(h, c);
    BootstrapKeepsValid(h, c);
    RecentKeepsTimers(h1, c);
    RecentKeepsLog(h1, c);
    DataKeepsValid(RecentStatus(h1, c), c);
  }

  lemma FiringKeepsValid(h: History, timer: TimerId)
    requires Valid(h) && timer in h.armed
    ensures Valid(Apply(h, TimerFires(timer)))
  {
    var h' := Apply(h, TimerFires(timer));
    EndsOfOne(h.log, PublishedPaused(timer));
    if h.recentSyncComplete {
      PausesStay(h, h');
    } else {
      PausesGrow(h, h', PublishedPaused(timer));
    }
  }

  lemma StepKeepsValid(h: History, e: Event)
    requires Valid(h) && Enabled(h, e)
    ensures Valid(Apply(h, e))
  {
    match e
    case OnChunk(c) => ChunkKeepsValid(h, c);
    case TimerFires(timer) => FiringKeepsValid(h, timer);
    case Cleanup => ClearKeepsValid(h);
  }

  ghost predicate IsRun(h: History, events: seq<Event>)
    decreases |events|
  {
    events == [] || (Enabled(h, events[0]) && IsRun(Apply(h, events[0]), events[1..]))
  }

  ghost function Exec(h: History, events: seq<Event>): History
    requires IsRun(h, events)
    decreases |events|
  {
    if events == [] then h else Exec(Apply(h, events[0]), events[1..])
  }

  lemma {:induction false} RunKeepsValid(h: History, events: seq<Event>)
    requires Valid(h) && IsRun(h, events)
    ensures Valid(Exec(h, events))
    ensures h.recentSyncComplete ==> Exec(h, events).recentSyncComplete
    ensures h.cleared <= Exec(h, events).cleared
    decreases |events|
  {
    if events != [] {
      StepKeepsValid(h, events[0]);
      RunKeepsValid(Apply(h, events[0]), events[1..]);
    }
  }

  /**
   * Over every run of chunks, timer firings and cleanups: RECENT ends at most once, INITIAL_BOOTSTRAP
   * completes at most once, at most one timer is armed and none once RECENT has ended, a sync that
   * is still waiting has its timer, and no cleared timer ever published.
   */
  lemma RecentEndsOnce(events: seq<Event>)
    requires IsRun(INITIAL, events)
    ensures var h := Exec(INITIAL, events);
            && RecentEnds(h.log) <= 1
            && BootstrapEnds(h.log) <= 1
            && |h.armed| <= 1
            && (RecentEnds(h.log) == 1 ==> h.armed == {})
            && (h.waiting ==> h.armed != {})
            && (forall i :: 0 <= i < |h.log| && h.log[i].PublishedPaused? ==> h.log[i].timer !in h.cleared)
  {
    assert Valid(INITIAL);
    RunKeepsValid(INITIAL, events);
  }

  /**
   * A cleanup is final only for the timer it finds. An unfinished RECENT chunk dispatched after it arms
   * another one, and that one publishes.
   */
  lemma CleanupIsNotFinal(h: History, c: Chunk)
    requires Valid(h) && c.syncType == Recent
    ensures var cleaned := Apply(h, Cleanup);
            Apply(cleaned, OnChunk(c)).armed != {} <==> IsFinal(c) && c.progress != Some(100) && !h.recentSyncComplete
  {
  }

  class Dispatcher {
    var initialBootstrapComplete: bool
    var recentSyncComplete: bool
    var pausedTimeout: Option<TimerId>
    ghost var armed: set<TimerId>
    ghost var cleared: set<TimerId>
    var next: TimerId
    ghost var waiting: bool
    ghost var log: seq<Emission>

    ghost function View(): History
      reads this
    {
      History(initialBootstrapComplete, recentSyncComplete, pausedTimeout, armed, cleared, next, waiting, log)
    }

    constructor ()
      ensures View() == INITIAL
    {
      initialBootstrapComplete, recentSyncComplete, pausedTimeout, next := false, false, None, 0;
      armed, cleared, waiting, log := {}, {}, false, [];
    }

    method ClearTimeout()
      modifies this
      ensures View() == ClearPausedTimeout(old(View()))
    {
      if pausedTimeout.Some? {
        armed, cleared := armed - {pausedTimeout.value}, cleared + {pausedTimeout.value};
      }
      pausedTimeout := None;
    }

    method DispatchChunk(c: Chunk)
      requires Valid(View())
      modifies this
      ensures Valid(View()) && View() == Apply(old(View()), OnChunk(c))
    {
      ghost var before := View();
      var isFinalBatch := c.isFinalBatch != Some(false);
      var isInitial := c.syncType == InitialBootstrap;
      if isFinalBatch && isInitial && !initialBootstrapComplete {
        initialBootstrapComplete := true;
        log := log + [PublishedComplete(InitialBootstrap)];
      }
      if isFinalBatch && c.syncType == Recent && !recentSyncComplete {
        ClearTimeout();
        if c.progress == Some(100) {
          recentSyncComplete := true;
          waiting := false;
          log := log + [PublishedComplete(Recent)];
        } else {
          pausedTimeout := Some(next);
          armed, next, waiting := armed + {next}, next + 1, true;
        }
      }
      log := log + Data(c);
      hide Valid, Data;
      StepKeepsValid(before, OnChunk(c));
    }

    /** The callback of an armed timer. */
    method Fire(timer: TimerId)
      requires Valid(View()) && timer in armed
      modifies this
      ensures Valid(View()) && View() == Apply(old(View()), TimerFires(timer))
    {
      ghost var before := View();
      armed, waiting := armed - {timer}, false;
      if !recentSyncComplete {
        recentSyncComplete := true;
        log := log + [PublishedPaused(timer)];
      }
      pausedTimeout := None;
      StepKeepsValid(before, TimerFires(timer));
    }

    method CleanUp()
      requires Valid(View())
      modifies this
      ensures Valid(View()) && View() == Apply(old(View()), Cleanup)
    {
      ghost var before := View();
      ClearTimeout();
      waiting := false;
      ClearKeepsValid(before);
    }
  }
}
