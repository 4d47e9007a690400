/** What a history chunk publishes, by its own fields, and which runs end a sync. */
module HistoryContents {
  import opened Wrappers
  import opened HistorySync

  /** The last batch of its chunk; a chunk that is not split says nothing about it. */
  predicate IsLast(c: Chunk) { c.isFinalBatch.None? || c.isFinalBatch.value }

  predicate CompletesRecent(c: Chunk) { c.syncType.Recent? && IsLast(c) && c.progress == Some(100) }

  /**
   * The data of a chunk: `isLatest` is left out on demand and else true just for the last batch of the bootstrap,
   * the progress is given with the last batch only, and chats follow when there are any.
   */
  predicate SaysData(c: Chunk, data: seq<Emission>) {
    && |data| == (if c.chats == 0 then 1 else 2)
    && data[0].PublishedSet?
    && (data[0].isLatest.None? <==> c.syncType.OnDemand?)
    && (data[0].isLatest.Some? ==> (data[0].isLatest.value <==> c.syncType.InitialBootstrap? && IsLast(c)))
    && (if IsLast(c) then data[0].progress == c.progress else data[0].progress.None?)
    && (c.chats > 0 ==> data[1] == PublishedChats)
  }

  /** Everything a chunk publishes, in order: what it completes for the first time, then its data. */
  lemma ChunkSays(h: History, c: Chunk) returns (bootstrap: seq<Emission>, recent: seq<Emission>, data: seq<Emission>)
    ensures Apply(h, OnChunk(c)).log == h.log + bootstrap + recent + data
    ensures bootstrap == if c.syncType.InitialBootstrap? && IsLast(c) && !h.initialBootstrapComplete
                         then [PublishedComplete(InitialBootstrap)] else []
    ensures recent == if CompletesRecent(c) && !h.recentSyncComplete then [PublishedComplete(Recent)] else []
    ensures SaysData(c, data)
  {
    bootstrap := if c.syncType.InitialBootstrap? && IsLast(c) && !h.initialBootstrapComplete
                 then [PublishedComplete(InitialBootstrap)] else [];
    recent := if CompletesRecent(c) && !h.recentSyncComplete then [PublishedComplete(Recent)] else [];
    data := Data(c);
    assert BootstrapStatus(h, c).log == h.log + bootstrap;
    assert RecentStatus(BootstrapStatus(h, c), c).log == h.log + bootstrap + recent;
  }

  /** A RECENT sync is ended by its last batch at 100, or by the timer that waits for it. */
  predicate EndsSync(e: Event) { e.TimerFires? || (e.OnChunk? && CompletesRecent(e.chunk)) }

  predicate Bootstraps(e: Event) { e.OnChunk? && e.chunk.syncType.InitialBootstrap? && IsLast(e.chunk) }

  /** How it is published. */
  function EndOf(e: Event): Emission {
    if e.TimerFires? then PublishedPaused(e.timer) else PublishedComplete(Recent)
  }

  lemma StepFlags(h: History, e: Event)
    requires Valid(h) && Enabled(h, e)
    ensures Apply(h, e).recentSyncComplete <==> h.recentSyncComplete || EndsSync(e)
    ensures Apply(h, e).initialBootstrapComplete <==> h.initialBootstrapComplete || Bootstraps(e)
  {
    hide LogOk, Data;
  }

  lemma ChunkLogs(h: History, c: Chunk)
    ensures h.log <= Apply(h, OnChunk(c)).log
    ensures !h.recentSyncComplete && CompletesRecent(c) ==> PublishedComplete(Recent) in Apply(h, OnChunk(c)).log
  {
    var bootstrap, recent, data := ChunkSays(h, c);
    hide Apply, SaysData;
    var log := h.log + bootstrap + recent + data;
    assert log == h.log + (bootstrap + recent + data);
    assert recent != [] ==> log[|h.log| + |bootstrap|] == recent[0];
  }

  lemma StepEnds(h: History, e: Event)
    requires Valid(h) && Enabled(h, e)
    ensures Apply(h, e).recentSyncComplete <==> h.recentSyncComplete || EndsSync(e)
    ensures Apply(h, e).initialBootstrapComplete <==> h.initialBootstrapComplete || Bootstraps(e)
    ensures h.log <= Apply(h, e).log
    ensures !h.recentSyncComplete && EndsSync(e) ==> EndOf(e) in Apply(h, e).log
  {
    StepFlags(h, e);
    hide LogOk, RecentStatus, BootstrapStatus, Data;
    if e.OnChunk? {
      ChunkLogs(h, e.chunk);
    }
  }

  lemma {:induction false} RunEnds(h: History, events: seq<Event>)
    requires Valid(h) && IsRun(h, events)
    ensures var last := Exec(h, events);
            && (last.recentSyncComplete <==>
                 h.recentSyncComplete || exists i :: 0 <= i < |events| && EndsSync(events[i]))
            && (last.initialBootstrapComplete <==>
                 h.initialBootstrapComplete || exists i :: 0 <= i < |events| && Bootstraps(events[i]))
            && h.log <= last.log && Valid(last)
    decreases |events|
  {
    if events != [] {
      var next, rest := Apply(h, events[0]), events[1..];
      StepKeepsValid(h, events[0]);
      StepEnds(h, events[0]);
      RunEnds(next, rest);
      assert forall i :: 0 < i < |events| ==> events[i] == rest[i - 1];
      assert forall i :: 0 <= i < |rest| ==> rest[i] == events[i + 1];
    }
  }

  predicate FirstEnd(events: seq<Event>, i: int) {
    0 <= i < |events| && EndsSync(events[i]) && forall j :: 0 <= j < i ==> !EndsSync(events[j])
  }

  /** The first event that can end the sync does, in its own way. */
  lemma {:induction false} FirstEnds(h: History, events: seq<Event>, i: nat)
    requires Valid(h) && IsRun(h, events) && !h.recentSyncComplete && FirstEnd(events, i)
    ensures EndOf(events[i]) in Exec(h, events).log
    decreases |events|
  {
    var next, rest := Apply(h, events[0]), events[1..];
    StepKeepsValid(h, events[0]);
    StepEnds(h, events[0]);
    RunEnds(next, rest);
    if i > 0 {
      FirstEnds(next, rest, i - 1);
    }
  }

  /**
   * Over every run a RECENT sync ends exactly when it had a last batch at 100 or its timer fired, then once, the way
   * the first of these ends it; the bootstrap completes exactly when the last batch of one was dispatched, then once.
   */
  lemma SyncsEndExactly(events: seq<Event>)
    requires IsRun(INITIAL, events)
    ensures var log := Exec(INITIAL, events).log;
            && RecentEnds(log) == (if exists i :: 0 <= i < |events| && EndsSync(events[i]) then 1 else 0)
            && BootstrapEnds(log) == (if exists i :: 0 <= i < |events| && Bootstraps(events[i]) then 1 else 0)
            && forall i :: FirstEnd(events, i) ==> EndOf(events[i]) in log
  {
    RunEnds(INITIAL, events);
    forall i | FirstEnd(events, i)
      ensures EndOf(events[i]) in Exec(INITIAL, events).log
    {
      FirstEnds(INITIAL, events, i);
    }
  }
}
