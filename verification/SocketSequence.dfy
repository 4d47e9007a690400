/**
 * In what order the awaits of a close and of a startup come, over whole runs: a log of every await that is
 * over, read off the states of the run, and what that log is in the end.
 */
module SocketSequence {
  import opened Wrappers
  import opened ClientPhase
  import opened SocketMachine
  import opened SocketSafety
  import opened SocketTheorems

  // ---------------------------------------------------------------- the states of a run

  ghost function After(s: State, events: seq<Event>, i: nat): State
    requires IsRun(s, events) && i <= |events|
    decreases i
  {
    if i == 0 then s else After(Apply(s, events[0]), events[1..], i - 1)
  }

  lemma {:induction false} AfterNext(s: State, events: seq<Event>, i: nat)
    requires IsRun(s, events) && i < |events|
    ensures Enabled(After(s, events, i), events[i])
    ensures After(s, events, i + 1) == Apply(After(s, events, i), events[i])
    decreases i
  {
    if i > 0 {
      AfterNext(Apply(s, events[0]), events[1..], i - 1);
    }
  }

  lemma {:induction false} AfterAll(s: State, events: seq<Event>)
    requires IsRun(s, events)
    ensures After(s, events, |events|) == Exec(s, events)
    decreases |events|
  {
    if events != [] {
      AfterAll(Apply(s, events[0]), events[1..]);
    }
  }

  ghost function At(cfg: Config, handlers: nat, events: seq<Event>, i: nat): State
    requires IsRun(Initial(cfg, handlers), events) && i <= |events|
  {
    After(Initial(cfg, handlers), events, i)
  }

  // ---------------------------------------------------------------- what a close awaits

  datatype Mark =
    | TransportSettled(ok: bool)       // ws.close()
    | FallbackSettled                  // client.disconnect(), after a ws.close() that was refused
    | Yielded                          // one tick of the barrier before the flushes
    | StoreFlushed(ok: bool)               // one of the two stores
    | HandlerStarted(index: nat)
    | HandlerReturned(index: nat)
    | ReleaseDisconnected(ok: bool)    // client.disconnect() in the release
    | ReleasePassed                    // a tick or a flush of the release
    | ClientFreed

  /** The await a step of the close ends, by where the close stood. */
  function Ended(close: ClosePc, joined: Option<bool>, ok: bool): seq<Mark> {
    match close
    case CWs => if joined.Some? then [TransportSettled(joined.value)] else []
    case CFallback => [FallbackSettled]
    case CBarrier(_) => [Yielded]
    case CFlush(_) => [StoreFlushed(ok)]
    case CHandler(k) => [HandlerReturned(k)]
    case CRelease(r) => if r.RDisconnect? then [ReleaseDisconnected(ok)] else [ReleasePassed]
    case _ => []
  }

  /** What one step adds to the log, by the states before and after it. */
  function MarksOf(s: State, e: Event, s': State): seq<Mark> {
    (if e.CloseStep? then Ended(s.own.close, s.own.joined, e.ok) else [])
    + (if s'.own.close.CHandler? && s'.own.close != s.own.close then [HandlerStarted(s'.own.close.index)] else [])
    + (if e.CloseStep? && s'.hand.frees > s.hand.frees then [ClientFreed] else [])
  }

  ghost function LogAt(cfg: Config, handlers: nat, events: seq<Event>, i: nat): seq<Mark>
    requires IsRun(Initial(cfg, handlers), events) && i <= |events|
  {
    if i == 0 then []
    else
      LogAt(cfg, handlers, events, i - 1)
      + MarksOf(At(cfg, handlers, events, i - 1), events[i - 1], At(cfg, handlers, events, i))
  }

  // ---------------------------------------------------------------- the course of one close

  /** What a close depends on: how its awaits came out, its client, and the handlers there were. */
  datatype Course = Course(wsOk: bool, client: bool, first: bool, second: bool, handlers: nat, disconnected: bool)

  function Transport(c: Course): seq<Mark> {
    [TransportSettled(c.wsOk)] + (if c.client && !c.wsOk then [FallbackSettled] else [])
  }

  function Barrier(c: Course): seq<Mark> { if c.client then [Yielded, Yielded] else [] }

  /** Each handler in turn, and none before the one ahead of it has returned. */
  function InTurn(n: nat): seq<Mark> {
    if n == 0 then [] else InTurn(n - 1) + [HandlerStarted(n - 1), HandlerReturned(n - 1)]
  }

  function BeforeHandlers(c: Course): seq<Mark> {
    Transport(c) + Barrier(c) + [StoreFlushed(c.first), StoreFlushed(c.second)]
  }

  function BeforeRelease(c: Course): seq<Mark> { BeforeHandlers(c) + InTurn(c.handlers) }

  function Release(c: Course): seq<Mark> {
    if !c.client then []
    else
      [ReleaseDisconnected(c.disconnected)]
      + (if c.disconnected then [ReleasePassed, ReleasePassed, ReleasePassed, ReleasePassed] else [])
      + [ClientFreed]
  }

  function Times(n: nat, m: Mark): seq<Mark> { seq(n, _ => m) }

  /** The log a close has by the time it stands where it stands. */
  ghost predicate OnCourse(s: State, c: Course, log: seq<Mark>) {
    && (Teardown(s.own.close) ==> c.client == Peek(s.own.phase).Some?)
    && match s.own.close
       case CIdle => log == [] && !s.own.flushErr
       case CScheduled => log == [] && !s.own.flushErr
       case CWs => log == [] && !s.own.flushErr
       case CFallback => c.client && !c.wsOk && log == [TransportSettled(false)] && !s.own.flushErr
       case CBarrier(n) =>
         c.client && 1 <= n <= 2 && log == Transport(c) + Times(2 - n, Yielded) && !s.own.flushErr
       case CFlush(n) =>
         && 1 <= n <= 2
         && log == Transport(c) + Barrier(c) + (if n == 2 then [] else [StoreFlushed(c.first)])
         && s.own.flushErr == (n == 1 && !c.first)
       case CHandler(k) =>
         log == BeforeHandlers(c) + InTurn(k) + [HandlerStarted(k)] && s.own.flushErr == !(c.first && c.second)
       case CRelease(r) =>
         && c.client && s.own.flushErr == !(c.first && c.second)
         && (if r.RDisconnect? then log == BeforeRelease(c)
             else r.RTail? && 1 <= r.left <= 4 && c.disconnected
                  && log == BeforeRelease(c) + [ReleaseDisconnected(true)] + Times(4 - r.left, ReleasePassed))
       case CDrain => log == BeforeRelease(c) + Release(c) && s.own.flushErr == !(c.first && c.second)
       case CSettled(ok) => log == BeforeRelease(c) + Release(c) && ok == (c.first && c.second)
  }

  // ---------------------------------------------------------------- every step stays on it

  /** What is settled about a close once it is past its end handlers. */
  predicate Decided(c: Course, c': Course) {
    c'.wsOk == c.wsOk && c'.client == c.client && c'.first == c.first && c'.second == c.second
    && c'.handlers == c.handlers
  }

  ghost predicate Stays(s: State, e: Event, s': State, c: Course, c': Course, log: seq<Mark>) {
    var log' := log + MarksOf(s, e, s');
    && OnCourse(s', c', log')
    && (s.own.phase.Closed? ==> Decided(c, c'))
    && (!s.own.phase.Closed? && s'.own.phase.Closed? ==>
          && c'.handlers == s.own.handlers && c'.client == Peek(s.own.phase).Some?
          && log' == BeforeRelease(c'))
  }

  lemma OtherStays(s: State, e: Event, c: Course, log: seq<Mark>) returns (c': Course)
    requires Inv(s) && Enabled(s, e) && !e.CloseStep? && OnCourse(s, c, log)
    ensures Stays(s, e, Apply(s, e), c, c', log)
  {
    var s' := Apply(s, e);
    OtherStepsWait(s, e);
    OtherMarks(s, e, s', log);
    if s.own.close.CIdle? {
      c' := c.(client := Peek(s'.own.phase).Some?);
      StepKeeps(s, e);
      NotYetClosed(s, s', c', log);
    } else {
      c' := c;
      Unmoved(s, s', c, log);
    }
    hide Apply, MarksOf, Inv, OnCourse;
  }

  lemma NotYetClosed(s: State, s': State, c: Course, log: seq<Mark>)
    requires Inv(s) && Inv(s') && s.own.close.CIdle? && (s'.own.close.CIdle? || s'.own.close.CScheduled?)
    requires log == [] && !s'.own.flushErr && c.client == Peek(s'.own.phase).Some?
    ensures OnCourse(s', c, log) && !s.own.phase.Closed? && !s'.own.phase.Closed?
  {
  }

  lemma Unmoved(s: State, s': State, c: Course, log: seq<Mark>)
    requires OnCourse(s, c, log)
    requires s'.own.close == s.own.close && s'.own.phase == s.own.phase && s'.own.flushErr == s.own.flushErr
    ensures OnCourse(s', c, log)
  {
  }

  lemma OtherMarks(s: State, e: Event, s': State, log: seq<Mark>)
    requires !e.CloseStep? && (s'.own.close == s.own.close || !s'.own.close.CHandler?)
    ensures log + MarksOf(s, e, s') == log
  {
  }

  /** No other step moves a close that has begun. */
  lemma OtherStepsWait(s: State, e: Event)
    requires Inv(s) && Enabled(s, e) && !e.CloseStep?
    ensures var s' := Apply(s, e);
            if s.own.close.CIdle? then s'.own.close.CIdle? || s'.own.close.CScheduled?
            else s'.own.close == s.own.close && s'.own.phase == s.own.phase
    ensures Apply(s, e).own.flushErr == s.own.flushErr
  {
    match e
    case InitStep(ok) =>
      if s.boot.pc.IRejected? {
        CatchKeeps(s);
      }
    case CallStep(i) =>
    case _ =>
  }

  lemma TransportStays(s: State, ok: bool, c: Course, log: seq<Mark>) returns (c': Course)
    requires Inv(s) && CloseEnabled(s) && OnCourse(s, c, log)
    requires s.own.close.CScheduled? || s.own.close.CWs? || s.own.close.CFallback? || s.own.close.CBarrier?
    ensures Stays(s, CloseStep(ok), CloseNext(s, ok), c, c', log)
  {
    c' := if s.own.close.CWs? then c.(wsOk := s.own.joined.value) else c;
  }

  /** No handler is left: the teardown is over, and the client, if there is one, goes to its release. */
  lemma TeardownEnds(s: State, o: Own, c: Course, log: seq<Mark>)
    requires c.client == Peek(o.phase).Some? && o.flushErr == !(c.first && c.second)
    requires log == BeforeRelease(c) && s.own == FinishTeardown(o, s.hand.tracked)
    ensures OnCourse(s, c, log)
  {
    assert !c.client ==> log + Release(c) == log;
  }

  lemma FirstFlushStays(s: State, ok: bool, c: Course, log: seq<Mark>) returns (c': Course)
    requires Inv(s) && CloseEnabled(s) && OnCourse(s, c, log) && s.own.close == CFlush(2)
    ensures Stays(s, CloseStep(ok), CloseNext(s, ok), c, c', log)
  {
    c' := c.(first := ok);
  }

  lemma FlushMarks(s: State, ok: bool, marks: seq<Mark>)
    requires Inv(s) && s.own.close == CFlush(1)
    requires marks == MarksOf(s, CloseStep(ok), CloseNext(s, ok))
    ensures CloseNext(s, ok).own == Flushed(s.own, ok, s.hand.tracked)
    ensures marks == if s.own.handlers > 0 then [StoreFlushed(ok), HandlerStarted(0)] else [StoreFlushed(ok)]
  {
  }

  lemma LastFlushStays(s: State, ok: bool, c: Course, log: seq<Mark>) returns (c': Course)
    requires Inv(s) && CloseEnabled(s) && OnCourse(s, c, log) && s.own.close == CFlush(1)
    ensures Stays(s, CloseStep(ok), CloseNext(s, ok), c, c', log)
  {
    c' := c.(second := ok, handlers := s.own.handlers);
    FlushMarks(s, ok, MarksOf(s, CloseStep(ok), CloseNext(s, ok)));
    if s.own.handlers == 0 {
      LastFlushEnds(s, ok, c, c', log);
    } else {
      LastFlushHands(s, ok, c, c', log);
    }
  }

  lemma LastFlushEnds(s: State, ok: bool, c: Course, c': Course, log: seq<Mark>)
    requires Inv(s) && OnCourse(s, c, log) && s.own.close == CFlush(1) && s.own.handlers == 0
    requires c' == c.(second := ok, handlers := 0)
    requires MarksOf(s, CloseStep(ok), CloseNext(s, ok)) == [StoreFlushed(ok)]
    ensures Stays(s, CloseStep(ok), CloseNext(s, ok), c, c', log)
  {
    assert InTurn(0) == [];
    assert log + [StoreFlushed(ok)] == BeforeHandlers(c') + [];
    hide MarksOf, Transport, Barrier, InTurn;
    TeardownEnds(CloseNext(s, ok), s.own.(flushErr := s.own.flushErr || !ok), c', log + [StoreFlushed(ok)]);
  }

  lemma LastFlushHands(s: State, ok: bool, c: Course, c': Course, log: seq<Mark>)
    requires Inv(s) && OnCourse(s, c, log) && s.own.close == CFlush(1) && s.own.handlers > 0
    requires c' == c.(second := ok, handlers := s.own.handlers)
    requires MarksOf(s, CloseStep(ok), CloseNext(s, ok)) == [StoreFlushed(ok), HandlerStarted(0)]
    ensures Stays(s, CloseStep(ok), CloseNext(s, ok), c, c', log)
  {
    assert InTurn(0) == [];
    assert log + [StoreFlushed(ok), HandlerStarted(0)] == BeforeHandlers(c') + [] + [HandlerStarted(0)];
    hide MarksOf, Transport, Barrier, InTurn;
  }

  lemma HandlerMarks(s: State, ok: bool, marks: seq<Mark>)
    requires Inv(s) && CloseEnabled(s) && s.own.close.CHandler?
    requires marks == MarksOf(s, CloseStep(ok), CloseNext(s, ok))
    ensures CloseNext(s, ok).own == Handled(s.own, s.hand.tracked)
    ensures var k := s.own.close.index;
            marks == [HandlerReturned(k)] + if k + 1 < s.own.handlers then [HandlerStarted(k + 1)] else []
  {
  }

  lemma HandlerStays(s: State, ok: bool, c: Course, log: seq<Mark>) returns (c': Course)
    requires Inv(s) && CloseEnabled(s) && OnCourse(s, c, log) && s.own.close.CHandler?
    ensures Stays(s, CloseStep(ok), CloseNext(s, ok), c, c', log)
  {
    c' := c.(handlers := s.own.handlers);
    var s' := CloseNext(s, ok);
    var k := s.own.close.index;
    var marks := MarksOf(s, CloseStep(ok), s');
    HandlerMarks(s, ok, marks);
    NextInTurn(BeforeHandlers(c), log, marks, k);
    assert BeforeHandlers(c') == BeforeHandlers(c) && c.client == Peek(s.own.phase).Some?;
    if k + 1 >= s.own.handlers {
      TeardownEnds(s', s.own, c', log + marks);
    }
  }

  lemma NextInTurn(before: seq<Mark>, log: seq<Mark>, marks: seq<Mark>, k: nat)
    requires log == before + InTurn(k) + [HandlerStarted(k)]
    requires marks == [HandlerReturned(k)] || marks == [HandlerReturned(k), HandlerStarted(k + 1)]
    ensures log + marks == before + InTurn(k + 1) + marks[1..]
  {
    assert InTurn(k + 1) == InTurn(k) + [HandlerStarted(k), HandlerReturned(k)];
  }

  lemma ReleaseStays(s: State, ok: bool, c: Course, log: seq<Mark>) returns (c': Course)
    requires Inv(s) && CloseEnabled(s) && OnCourse(s, c, log) && (s.own.close.CRelease? || s.own.close.CDrain?)
    ensures Stays(s, CloseStep(ok), CloseNext(s, ok), c, c', log)
  {
    if s.own.close.CDrain? {
      c' := DrainStays(s, ok, c, log);
    } else if s.own.close.rel.RDisconnect? {
      c' := DisconnectStays(s, ok, c, log);
    } else {
      c' := TailStays(s, ok, c, log);
    }
  }

  lemma DisconnectStays(s: State, ok: bool, c: Course, log: seq<Mark>) returns (c': Course)
    requires Inv(s) && OnCourse(s, c, log) && s.own.close == CRelease(RDisconnect)
    ensures Stays(s, CloseStep(ok), CloseNext(s, ok), c, c', log)
  {
    c' := c.(disconnected := ok);
  }

  lemma TailStays(s: State, ok: bool, c: Course, log: seq<Mark>) returns (c': Course)
    requires Inv(s) && OnCourse(s, c, log) && s.own.close.CRelease? && s.own.close.rel.RTail?
    ensures Stays(s, CloseStep(ok), CloseNext(s, ok), c, c', log)
  {
    c' := c;
    hide BeforeRelease;
  }

  lemma DrainStays(s: State, ok: bool, c: Course, log: seq<Mark>) returns (c': Course)
    requires Inv(s) && CloseEnabled(s) && OnCourse(s, c, log) && s.own.close.CDrain?
    ensures Stays(s, CloseStep(ok), CloseNext(s, ok), c, c', log)
  {
    c' := c;
    assert log + [] == log;
  }

  lemma StepStays(s: State, e: Event, c: Course, log: seq<Mark>) returns (c': Course)
    requires Inv(s) && Enabled(s, e) && OnCourse(s, c, log)
    ensures Stays(s, e, Apply(s, e), c, c', log)
  {
    if !e.CloseStep? {
      c' := OtherStays(s, e, c, log);
    } else if s.own.close == CFlush(2) {
      c' := FirstFlushStays(s, e.ok, c, log);
    } else if s.own.close.CFlush? {
      c' := LastFlushStays(s, e.ok, c, log);
    } else if s.own.close.CHandler? {
      c' := HandlerStays(s, e.ok, c, log);
    } else if s.own.close.CRelease? || s.own.close.CDrain? {
      c' := ReleaseStays(s, e.ok, c, log);
    } else {
      c' := TransportStays(s, e.ok, c, log);
    }
  }

  // ---------------------------------------------------------------- whole runs

  /** The step with which the teardown ends. */
  ghost predicate ClosesAt(cfg: Config, handlers: nat, events: seq<Event>, i: nat)
    requires IsRun(Initial(cfg, handlers), events)
  {
    && i < |events|
    && !At(cfg, handlers, events, i).own.phase.Closed? && At(cfg, handlers, events, i + 1).own.phase.Closed?
  }

  /** At that step the handlers of the course were counted, with its client, and the part before the release ended. */
  ghost predicate CountedAt(cfg: Config, handlers: nat, events: seq<Event>, c: Course, i: nat)
    requires IsRun(Initial(cfg, handlers), events) && i < |events|
  {
    && c.handlers == At(cfg, handlers, events, i).own.handlers
    && c.client == Peek(At(cfg, handlers, events, i).own.phase).Some?
    && LogAt(cfg, handlers, events, i + 1) == BeforeRelease(c)
  }

  lemma {:induction false} RunStays(cfg: Config, handlers: nat, events: seq<Event>, i: nat) returns (c: Course)
    requires IsRun(Initial(cfg, handlers), events) && i <= |events|
    ensures Inv(At(cfg, handlers, events, i))
    ensures OnCourse(At(cfg, handlers, events, i), c, LogAt(cfg, handlers, events, i))
    ensures At(cfg, handlers, events, i).own.phase.Closed? ==>
              exists k: nat :: k < i && ClosesAt(cfg, handlers, events, k)
    ensures forall k: nat :: k < i && ClosesAt(cfg, handlers, events, k) ==>
              At(cfg, handlers, events, i).own.phase.Closed? && CountedAt(cfg, handlers, events, c, k)
  {
    if i == 0 {
      c := Course(true, false, true, true, 0, true);
    } else {
      var c0 := RunStays(cfg, handlers, events, i - 1);
      c := RunStep(cfg, handlers, events, i - 1, c0);
    }
  }

  lemma RunStep(cfg: Config, handlers: nat, events: seq<Event>, i: nat, c0: Course) returns (c: Course)
    requires IsRun(Initial(cfg, handlers), events) && i < |events| && Inv(At(cfg, handlers, events, i))
    requires OnCourse(At(cfg, handlers, events, i), c0, LogAt(cfg, handlers, events, i))
    requires At(cfg, handlers, events, i).own.phase.Closed? ==>
               exists k: nat :: k < i && ClosesAt(cfg, handlers, events, k)
    requires forall k: nat :: k < i && ClosesAt(cfg, handlers, events, k) ==>
               At(cfg, handlers, events, i).own.phase.Closed? && CountedAt(cfg, handlers, events, c0, k)
    ensures Inv(At(cfg, handlers, events, i + 1))
    ensures OnCourse(At(cfg, handlers, events, i + 1), c, LogAt(cfg, handlers, events, i + 1))
    ensures At(cfg, handlers, events, i + 1).own.phase.Closed? ==>
              exists k: nat :: k < i + 1 && ClosesAt(cfg, handlers, events, k)
    ensures forall k: nat :: k < i + 1 && ClosesAt(cfg, handlers, events, k) ==>
              At(cfg, handlers, events, i + 1).own.phase.Closed? && CountedAt(cfg, handlers, events, c, k)
  {
    c := StaysAt(cfg, handlers, events, i, c0);
    if At(cfg, handlers, events, i).own.phase.Closed? {
      DecidedIsSame(c0, c);
    }
    hide At, LogAt, OnCourse, BeforeRelease, Inv;
    if ClosesAt(cfg, handlers, events, i) {
      assert i < i + 1;
    }
  }

  lemma StaysAt(cfg: Config, handlers: nat, events: seq<Event>, i: nat, c0: Course) returns (c: Course)
    requires IsRun(Initial(cfg, handlers), events) && i < |events| && Inv(At(cfg, handlers, events, i))
    requires OnCourse(At(cfg, handlers, events, i), c0, LogAt(cfg, handlers, events, i))
    ensures Inv(At(cfg, handlers, events, i + 1))
    ensures OnCourse(At(cfg, handlers, events, i + 1), c, LogAt(cfg, handlers, events, i + 1))
    ensures At(cfg, handlers, events, i).own.phase.Closed? ==>
              At(cfg, handlers, events, i + 1).own.phase.Closed? && Decided(c0, c)
    ensures ClosesAt(cfg, handlers, events, i) ==> CountedAt(cfg, handlers, events, c, i)
  {
    var s := At(cfg, handlers, events, i);
    AfterNext(Initial(cfg, handlers), events, i);
    StepKeeps(s, events[i]);
    c := StepStays(s, events[i], c0, LogAt(cfg, handlers, events, i));
    ClosedStays(s, events[i]);
    hide OnCourse, BeforeRelease, Apply, Inv, MarksOf, Enabled;
  }

  lemma ClosedStays(s: State, e: Event)
    requires Inv(s) && Enabled(s, e)
    ensures s.own.phase.Closed? ==> Apply(s, e).own.phase.Closed?
  {
    StepKeeps(s, e);
    if e.CloseStep? {
    } else {
      OtherStepsWait(s, e);
    }
  }

  lemma DecidedIsSame(c: Course, c': Course)
    ensures Decided(c, c') ==> BeforeRelease(c') == BeforeRelease(c)
  {
  }

  /**
   * A close in any run. Once its teardown is over, the awaits so far are: the facade's close, with a try at the
   * client where that was refused; two ticks where there is a client; two store flushes; then the end handlers
   * registered by the instant the teardown ended, each once, in order, and none started before the one ahead had
   * returned. Once it has settled, the release has followed, where there is a client: its disconnect, four more
   * awaits if that went well, and `free()`; and the close came out fine exactly when both flushes did.
   */
  lemma CloseRunsInOrder(cfg: Config, handlers: nat, events: seq<Event>) returns (c: Course, i: nat)
    requires IsRun(Initial(cfg, handlers), events)
    requires Exec(Initial(cfg, handlers), events).own.phase.Closed?
    ensures ClosesAt(cfg, handlers, events, i) && CountedAt(cfg, handlers, events, c, i)
    ensures var s, log := Exec(Initial(cfg, handlers), events), LogAt(cfg, handlers, events, |events|);
            && BeforeRelease(c) <= log <= BeforeRelease(c) + Release(c)
            && (s.own.close.CSettled? ==>
                  log == BeforeRelease(c) + Release(c) && s.own.close.ok == (c.first && c.second))
  {
    AfterAll(Initial(cfg, handlers), events);
    c := RunStays(cfg, handlers, events, |events|);
    i :| 0 <= i < |events| && ClosesAt(cfg, handlers, events, i);
    ClosedLog(Exec(Initial(cfg, handlers), events), c, LogAt(cfg, handlers, events, |events|));
  }

  lemma ClosedLog(s: State, c: Course, log: seq<Mark>)
    requires Inv(s) && s.own.phase.Closed? && OnCourse(s, c, log)
    ensures BeforeRelease(c) <= log <= BeforeRelease(c) + Release(c)
  {
    var before := BeforeRelease(c);
    hide BeforeRelease;
    if s.own.close.CRelease? {
      assert log == before + log[|before|..];
    }
  }

  // ---------------------------------------------------------------- a startup

  /** What startup awaits before it calls `run()`. */
  function Awaits(cfg: Config): seq<InitPc> {
    [IAuth] + (if cfg.legacyStore then [IWrap] else []) + [ICreate] + (if cfg.pushName then [IPushName] else [])
    + [IProps, IIdentity] + (if cfg.android then [IProfile] else [])
  }

  /** Those before the one it stands at. */
  ghost predicate Stands(b: Boot, cfg: Config, log: seq<(InitPc, bool)>) {
    (BeforeClient(b.pc) || Wiring(b.pc) || (b.pc.IDone? && b.ran) ==>
       exists n :: 0 <= n <= |Awaits(cfg)| && log == AllFine(Awaits(cfg)[..n])
                   && (if b.pc.IDone? then n == |Awaits(cfg)| else n < |Awaits(cfg)| && Awaits(cfg)[n] == b.pc))
  }

  function AllFine(pcs: seq<InitPc>): seq<(InitPc, bool)> {
    seq(|pcs|, i requires 0 <= i < |pcs| => (pcs[i], true))
  }

  /** Each await of `init()` that is over, and how it came out. */
  ghost function StartupLogAt(cfg: Config, handlers: nat, events: seq<Event>, i: nat): seq<(InitPc, bool)>
    requires IsRun(Initial(cfg, handlers), events) && i <= |events|
  {
    if i == 0 then []
    else
      StartupLogAt(cfg, handlers, events, i - 1)
      + (if events[i - 1].InitStep? then [(At(cfg, handlers, events, i - 1).boot.pc, events[i - 1].ok)] else [])
  }

  lemma StandsNext(b: Boot, b': Boot, cfg: Config, log: seq<(InitPc, bool)>, n: nat)
    requires n < |Awaits(cfg)| && log == AllFine(Awaits(cfg)[..n]) && Awaits(cfg)[n] == b.pc
    requires if b'.pc.IDone? then n + 1 == |Awaits(cfg)| else n + 1 < |Awaits(cfg)| && Awaits(cfg)[n + 1] == b'.pc
    ensures Stands(b', cfg, log + [(b.pc, true)])
  {
    assert AllFine(Awaits(cfg)[..n + 1]) == log + [(b.pc, true)];
  }

  function Following(cfg: Config, pc: InitPc): InitPc {
    match pc
    case IAuth => if cfg.legacyStore then IWrap else ICreate
    case IWrap => ICreate
    case ICreate => if cfg.pushName then IPushName else IProps
    case IPushName => IProps
    case IProps => IIdentity
    case IIdentity => if cfg.android then IProfile else IDone
    case _ => IDone
  }

  lemma FollowingIsNext(cfg: Config, n: nat)
    requires n < |Awaits(cfg)|
    ensures Following(cfg, Awaits(cfg)[n]) == if n + 1 == |Awaits(cfg)| then IDone else Awaits(cfg)[n + 1]
    ensures n + 1 < |Awaits(cfg)| ==> !Awaits(cfg)[n + 1].IDone?
  {
    var a := [IAuth] + (if cfg.legacyStore then [IWrap] else []) + [ICreate];
    var b := a + (if cfg.pushName then [IPushName] else []) + [IProps, IIdentity];
    assert Awaits(cfg) == b + (if cfg.android then [IProfile] else []);
  }

  /** A startup that goes on does so with the next await, and because this one came out fine. */
  lemma GoesOn(s: State, ok: bool)
    requires Inv(s) && InitEnabled(s) && (BeforeClient(s.boot.pc) || Wiring(s.boot.pc))
    ensures var b' := InitNext(s, ok).boot;
            BeforeClient(b'.pc) || Wiring(b'.pc) || (b'.pc.IDone? && b'.ran) ==>
              ok && b'.pc == Following(s.cfg, s.boot.pc)
  {
  }

  lemma InitStands(s: State, ok: bool, log: seq<(InitPc, bool)>)
    requires Inv(s) && InitEnabled(s) && Stands(s.boot, s.cfg, log)
    ensures Stands(InitNext(s, ok).boot, s.cfg, log + [(s.boot.pc, ok)])
  {
    var b, b' := s.boot, InitNext(s, ok).boot;
    if BeforeClient(b.pc) || Wiring(b.pc) {
      var n :| 0 <= n < |Awaits(s.cfg)| && log == AllFine(Awaits(s.cfg)[..n]) && Awaits(s.cfg)[n] == b.pc;
      GoesOn(s, ok);
      FollowingIsNext(s.cfg, n);
      hide InitNext, Inv, Awaits, Following;
      if BeforeClient(b'.pc) || Wiring(b'.pc) || (b'.pc.IDone? && b'.ran) {
        StandsNext(b, b', s.cfg, log, n);
      }
    } else {
      CatchNeverResumes(s, ok);
    }
  }

  lemma CatchNeverResumes(s: State, ok: bool)
    requires Inv(s) && InitEnabled(s) && !BeforeClient(s.boot.pc) && !Wiring(s.boot.pc)
    ensures !BeforeClient(InitNext(s, ok).boot.pc) && !Wiring(InitNext(s, ok).boot.pc)
    ensures !InitNext(s, ok).boot.ran
  {
    if s.boot.pc.IRejected? {
      CatchKeeps(s);
    }
  }

  lemma {:induction false} StartupStands(cfg: Config, handlers: nat, events: seq<Event>, i: nat)
    requires IsRun(Initial(cfg, handlers), events) && i <= |events|
    ensures Inv(At(cfg, handlers, events, i)) && At(cfg, handlers, events, i).cfg == cfg
    ensures Stands(At(cfg, handlers, events, i).boot, cfg, StartupLogAt(cfg, handlers, events, i))
  {
    if i == 0 {
      assert AllFine(Awaits(cfg)[..0]) == [];
    } else {
      StartupStands(cfg, handlers, events, i - 1);
      AfterNext(Initial(cfg, handlers), events, i - 1);
      StandsOn(At(cfg, handlers, events, i - 1), events[i - 1], StartupLogAt(cfg, handlers, events, i - 1));
    }
  }

  lemma StandsOn(s: State, e: Event, log: seq<(InitPc, bool)>)
    requires Inv(s) && Enabled(s, e) && Stands(s.boot, s.cfg, log)
    ensures Inv(Apply(s, e)) && Apply(s, e).cfg == s.cfg
    ensures Stands(Apply(s, e).boot, s.cfg, log + (if e.InitStep? then [(s.boot.pc, e.ok)] else []))
  {
    StepKeeps(s, e);
    if e.InitStep? {
      InitStands(s, e.ok, log);
      CfgStays(s, e.ok);
    } else {
      BootWaits(s, e);
      assert log + [] == log;
    }
    hide Inv, Stands, Apply;
  }

  lemma CfgStays(s: State, ok: bool)
    requires InitEnabled(s)
    ensures InitNext(s, ok).cfg == s.cfg
  {
  }

  lemma BootWaits(s: State, e: Event)
    requires Enabled(s, e) && !e.InitStep?
    ensures Apply(s, e).boot == s.boot && Apply(s, e).cfg == s.cfg
  {
  }

  /** `run()` has been called only behind every await the configuration asks for, in order, each come out fine. */
  lemma StartupRunsInOrder(cfg: Config, handlers: nat, events: seq<Event>)
    requires IsRun(Initial(cfg, handlers), events) && Exec(Initial(cfg, handlers), events).boot.ran
    ensures StartupLogAt(cfg, handlers, events, |events|) == AllFine(Awaits(cfg))
  {
    AfterAll(Initial(cfg, handlers), events);
    StartupStands(cfg, handlers, events, |events|);
    assert Awaits(cfg)[..|Awaits(cfg)|] == Awaits(cfg);
  }

  // ---------------------------------------------------------------- what a caller has waited for

  /** With this step call `i` comes to its `end()`: as it is made, or once the server has answered a `logout()`. */
  predicate EntersEnd(s: State, e: Event, i: nat) {
    match e
    case CallEnd(_) => i == |s.calls|
    case CallDispose(_) => i == |s.calls|
    case CallLogout(_) => i == |s.calls| && Peek(s.own.phase).None?
    case CallStep(k) => i == k < |s.calls| && s.calls[k].pc.LServer?
    case _ => false
  }

  /** It did so in an end handler, where `end()` has to return at once. */
  ghost predicate CutShort(cfg: Config, handlers: nat, events: seq<Event>, i: nat, n: nat)
    requires IsRun(Initial(cfg, handlers), events) && n <= |events|
  {
    exists j: nat :: j < n && EndsShort(At(cfg, handlers, events, j), events[j], i)
  }

  predicate EndsShort(s: State, e: Event, i: nat) { EntersEnd(s, e, i) && s.own.runningEndHandlers }

  /** What has settled by the time a call stands where it stands. */
  predicate Joined(s: State, c: Call, short: bool) {
    && (short || c.pc.LServer? || c.pc.LClose? ||
        (s.own.close.CSettled? && !c.pc.LTrivial? && (c.pc.LInit? || s.boot.pc.IDone?)))
    && (c.kind == Dispose && c.pc.LSettled? ==> s.boot.pc.IDone?)
  }

  lemma JoinedStays(s: State, s': State, c: Call, short: bool)
    requires Joined(s, c, short) && Later(s, s') && (s.boot.pc.IDone? ==> s'.boot.pc.IDone?)
    ensures Joined(s', c, short)
  {
  }

  lemma StartupStaysDone(s: State, e: Event)
    requires Enabled(s, e)
    ensures s.boot.pc.IDone? ==> Apply(s, e).boot.pc.IDone?
  {
    if !e.InitStep? {
      BootWaits(s, e);
    }
  }

  lemma CallJoins(s: State, e: Event, i: nat, short: bool)
    requires Inv(s) && Enabled(s, e) && i < |Apply(s, e).calls|
    requires i < |s.calls| ==> Joined(s, s.calls[i], short)
    ensures Joined(Apply(s, e), Apply(s, e).calls[i], short || EndsShort(s, e, i))
  {
    StepKeeps(s, e);
    StartupStaysDone(s, e);
    var s' := Apply(s, e);
    if i < |s.calls| && s'.calls[i] == s.calls[i] {
      JoinedStays(s, s', s.calls[i], short);
    } else if e.CallStep? {
      SteppingJoins(s, e.index, i, short);
    } else {
      PlacedJoins(s, e, i, short);
    }
  }

  lemma SteppingJoins(s: State, k: nat, i: nat, short: bool)
    requires Inv(s) && k < |s.calls| && CallEnabled(s, s.calls[k])
    requires i < |s.calls| && CallNext(s, k).calls[i] != s.calls[i] && Joined(s, s.calls[i], short)
    ensures Joined(CallNext(s, k), CallNext(s, k).calls[i], short || EndsShort(s, CallStep(k), i))
  {
    assert i == k && CallOk(s, s.calls[k]);
  }

  lemma PlacedJoins(s: State, e: Event, i: nat, short: bool)
    requires Inv(s) && Enabled(s, e) && !e.CallStep? && i < |Apply(s, e).calls|
    requires i < |s.calls| ==> Apply(s, e).calls[i] != s.calls[i]
    ensures Joined(Apply(s, e), Apply(s, e).calls[i], short || EndsShort(s, e, i))
  {
    assert |Apply(s, e).calls| <= |s.calls| + 1;
  }

  lemma {:induction false} CallsJoin(cfg: Config, handlers: nat, events: seq<Event>, n: nat, i: nat)
    requires IsRun(Initial(cfg, handlers), events) && n <= |events| && i < |At(cfg, handlers, events, n).calls|
    ensures Inv(At(cfg, handlers, events, n))
    ensures Joined(At(cfg, handlers, events, n), At(cfg, handlers, events, n).calls[i],
                   CutShort(cfg, handlers, events, i, n))
  {
    hide Inv, Joined, Apply, EndsShort;
    if n > 0 {
      var s := At(cfg, handlers, events, n - 1);
      StartupStands(cfg, handlers, events, n - 1);
      StartupStands(cfg, handlers, events, n);
      AfterNext(Initial(cfg, handlers), events, n - 1);
      if i < |s.calls| {
        CallsJoin(cfg, handlers, events, n - 1, i);
      }
      CallJoins(s, events[n - 1], i, CutShort(cfg, handlers, events, i, n - 1));
      ShortOn(cfg, handlers, events, i, n - 1);
    }
  }

  lemma ShortOn(cfg: Config, handlers: nat, events: seq<Event>, i: nat, n: nat)
    requires IsRun(Initial(cfg, handlers), events) && n < |events|
    ensures CutShort(cfg, handlers, events, i, n + 1)
       <==> CutShort(cfg, handlers, events, i, n) || EndsShort(At(cfg, handlers, events, n), events[n], i)
  {
  }

  /**
   * A call of `end()`, `logout()` or the async disposer that has settled has waited for the whole close and for
   * startup, unless its `end()` was called in an end handler; the disposer has waited for startup even then.
   */
  lemma SettledCallsHaveJoined(cfg: Config, handlers: nat, events: seq<Event>, i: nat)
    requires IsRun(Initial(cfg, handlers), events)
    requires i < |Exec(Initial(cfg, handlers), events).calls|
    requires Exec(Initial(cfg, handlers), events).calls[i].pc.LSettled?
    ensures var s := Exec(Initial(cfg, handlers), events);
            && (CutShort(cfg, handlers, events, i, |events|) || (s.own.close.CSettled? && s.boot.pc.IDone?))
            && (s.calls[i].kind == Dispose ==> s.boot.pc.IDone?)
  {
    AfterAll(Initial(cfg, handlers), events);
    CallsJoin(cfg, handlers, events, |events|, i);
  }
}
