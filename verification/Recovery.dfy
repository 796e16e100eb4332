/** Recovering a task's events from the command-line agent's session storage, and what every mix of outputs,
    reads, recoveries and cleanups keeps. */
module Recovery {
  import opened Json
  import opened EventLog
  import opened Eviction
  import opened Runs

  /** A message of a stored session. */
  datatype Message = Message(role: string, text: string, timestamp: int)

  function RecoveredEvent(messages: seq<Message>, i: nat): Event
    requires i < |messages|
  {
    var m := messages[i];
    Event(i + 1, m.role, m.timestamp, JObject(map["type" := JString(m.role), "content" := JString(m.text)]))
  }

  /** Recovered events are numbered from one. */
  function RecoveredEvents(messages: seq<Message>): (events: seq<Event>)
    ensures |events| == |messages|
  {
    seq(|messages|, i requires 0 <= i < |messages| => RecoveredEvent(messages, i))
  }

  /** Reading a session numbers its messages in order. */
  method ReadSession(messages: seq<Message>) returns (events: seq<Event>)
    ensures events == RecoveredEvents(messages)
    ensures NumberedFrom(events, 1)
    ensures |events| == |messages| && forall i :: 0 <= i < |messages| ==>
      && events[i].num == i + 1 && events[i].kind == messages[i].role && events[i].timestamp == messages[i].timestamp
      && events[i].data == JObject(map["type" := JString(messages[i].role), "content" := JString(messages[i].text)])
  {
    events := [];
    for i := 0 to |messages|
      invariant |events| == i
      invariant forall k :: 0 <= k < i ==> events[k] == RecoveredEvent(messages, k)
    {
      var m := messages[i];
      events := events
        + [Event(i + 1, m.role, m.timestamp, JObject(map["type" := JString(m.role), "content" := JString(m.text)]))];
    }
  }

  // ---- One read ----

  function EventsOf(s: Log, id: TaskId): seq<Event> {
    if id in s.caches then s.caches[id].events else []
  }

  /** Only a read that needs the binary search refreshes the access time, and only when it is stale. */
  function Touch(s: Log, id: TaskId, fromSeq: int, now: int): Log {
    var events := EventsOf(s, id);
    if ReadEvents(events, fromSeq).Some? && fromSeq >= events[0].num
       && now - s.caches[id].lastAccess > ACCESS_GRANULARITY
    then s.(caches := s.caches[id := s.caches[id].(lastAccess := now)])
    else s
  }

  function CountRead(stats: Stats, empty: bool): Stats {
    if empty then stats.(misses := stats.misses + 1) else stats.(hits := stats.hits + 1)
  }

  /** Looking in the cache: the state after it and what it returns. */
  function GetFromCache(s: Log, id: TaskId, fromSeq: int, now: int): (Log, Option<seq<Event>>) {
    var events := EventsOf(s, id);
    var s' := Touch(s, id, fromSeq, now);
    (s'.(stats := CountRead(s'.stats, events == [])), ReadEvents(events, fromSeq))
  }

  /** Recovered events go behind whatever the cache holds, and the result is cut to the configured size. */
  function Populate(cfg: Config, s: Log, id: TaskId, events: seq<Event>): Log {
    var c := if id in s.caches then s.caches[id] else Cache([], ZERO_TIME, ZERO_TIME);
    s.(caches := s.caches[id := c.(events := LastN(c.events + events, cfg.maxEvents))])
  }

  function SetSeq(s: Log, id: TaskId, num: int, ms: int): Log {
    if id in s.tasks then s.(tasks := s.tasks[id := s.tasks[id].(lastNum := num, updatedAt := ms)]) else s
  }

  /** An incremental read: from the cache, or else recovered from the stored session, if there is one. */
  function GetIncremental(cfg: Config, s: Log, id: TaskId, fromSeq: int, session: Option<seq<Message>>, ms: int, now: int)
    : (Log, seq<Event>)
  {
    var (s', cached) := GetFromCache(s, id, fromSeq, now);
    if cached.Some? then (s', cached.value)
    else if session.None? || session.value == [] then (s', [])
    else
      var recovered := RecoveredEvents(session.value);
      (SetSeq(Populate(cfg, s', id, recovered), id, |recovered|, ms), Newer(recovered, fromSeq))
  }

  /** The reallocation that makes room for recovered events panics when the cached ones are already over the limit and
      their array has too little room; the read then ends after the look. */
  predicate PopulatePanics(cfg: Config, events: seq<Event>, recovered: nat, capacity: nat) {
    |events| > cfg.maxEvents && capacity < |events| + recovered
  }

  /** An incremental read over an array of this capacity: whether it panics, the state it leaves, what it returns. */
  function GetOrPanic(cfg: Config, s: Log, id: TaskId, fromSeq: int, session: Option<seq<Message>>, capacity: nat,
                      ms: int, now: int): (bool, Log, seq<Event>)
  {
    var (s', cached) := GetFromCache(s, id, fromSeq, now);
    if NeedsRecovery(s, id, fromSeq, session) && PopulatePanics(cfg, EventsOf(s, id), |session.value|, capacity) then
      (true, s', [])
    else
      var (s'', events) := GetIncremental(cfg, s, id, fromSeq, session, ms, now);
      (false, s'', events)
  }

  /** A read leaves everything but access times and counters alone, unless it has to recover. */
  predicate NeedsRecovery(s: Log, id: TaskId, fromSeq: int, session: Option<seq<Message>>) {
    ReadEvents(EventsOf(s, id), fromSeq).None? && session.Some? && session.value != []
  }

  // ---- What a reader gets ----

  /** What a recovering read of an up-to-date reader may find: no more messages than it has read, and room for them if
      the cache is over its limit. */
  predicate Harmless(cfg: Config, cached: nat, p: nat, session: Option<seq<Message>>, capacity: nat) {
    session.None? || session.value == [] ||
    (|session.value| <= p && (cached <= cfg.maxEvents || capacity >= cached + |session.value|))
  }

  /** A reader of a new task at position p gets exactly the events it missed, once each and in order, and no panic, if and
      only if, being behind, it is at most maxEvents + 1 events behind, and, being up to date, a stored session holds no
      more messages than it has read and, once more than maxEvents events are cached, fits into the array behind them. */
  lemma MissedEventsAreExact(cfg: Config, s: Log, id: TaskId, outs: seq<Output>, p: nat,
                             session: Option<seq<Message>>, capacity: nat, ms: int, now: int)
    requires id in s.tasks && s.tasks[id].lastNum == 0 && id !in s.caches && p <= |outs|
    ensures var (panicked, _, events) := GetOrPanic(cfg, AddOutputs(cfg, s, id, outs), id, p, session, capacity, ms, now);
      (!panicked && events == FullLog(outs)[p..]
       <==> if p < |outs| then |outs| - p <= cfg.maxEvents + 1
            else Harmless(cfg, if |outs| <= cfg.maxEvents then |outs| else cfg.maxEvents + 1, p, session, capacity))
  {
    hide ReadEvents;
    hide AddOutputs;
    hide RecoveredEvents;
    hide Newer;
    hide GetOrPanic;
    hide FullLog;
    var s' := AddOutputs(cfg, s, id, outs);
    CacheIsLogSuffix(cfg, s, id, outs);
    GetGives(cfg, s', id, p, session, capacity, ms, now);
    SuffixOfLog(cfg, outs);
    ReadWhenBehind(FullLog(outs), EventsOf(s', id), p);
    if p < |outs| {
      CacheReadIsExact(cfg, s, id, outs, p);
    } else if session.Some? {
      RecoveredNewer(session.value, p);
    }
  }

  /** What an incremental read returns. */
  lemma GetGives(cfg: Config, s: Log, id: TaskId, p: nat, session: Option<seq<Message>>, capacity: nat, ms: int, now: int)
    ensures var (panicked, _, events) := GetOrPanic(cfg, s, id, p, session, capacity, ms, now);
      var cached := ReadEvents(EventsOf(s, id), p);
      var recovers := cached.None? && session.Some? && session.value != [];
      && panicked == (recovers && PopulatePanics(cfg, EventsOf(s, id), |session.value|, capacity))
      && (cached.Some? ==> events == cached.value)
      && (cached.None? && !recovers ==> events == [])
      && (recovers && !panicked ==> events == Newer(RecoveredEvents(session.value), p))
  {
    hide ReadEvents;
    hide Touch;
    hide Newer;
    hide RecoveredEvents;
  }

  lemma SuffixOfLog(cfg: Config, outs: seq<Output>)
    ensures var log := FullLog(outs);
      var events := LastN(log, cfg.maxEvents + 1);
      && NumberedFrom(log, 1) && NumberOrder(events) && (events == [] <==> log == [])
      && |events| == (if |outs| <= cfg.maxEvents then |outs| else cfg.maxEvents + 1)
      && (events != [] ==> events[|events| - 1] == log[|log| - 1])
  {
  }

  lemma ReadWhenBehind(log: seq<Event>, events: seq<Event>, p: nat)
    requires events == [] ==> log == []
    requires events != [] ==> log != [] && events[|events| - 1] == log[|log| - 1]
    requires NumberedFrom(log, 1) && p <= |log|
    ensures ReadEvents(events, p).Some? ==> p < |log|
    ensures p < |log| && NumberOrder(events) ==> ReadEvents(events, p).Some?
  {
    if p < |log| && NumberOrder(events) {
      OrderedReadIsFilter(events, p);
      NewerKeepsLast(events, p);
    }
  }

  lemma {:induction false} NewerKeepsLast(events: seq<Event>, p: int)
    requires events != [] && events[|events| - 1].num > p
    ensures Newer(events, p) != []
  {
    if |events| > 1 { NewerKeepsLast(events[1..], p); }
  }

  lemma RecoveredNewer(messages: seq<Message>, p: nat)
    ensures Newer(RecoveredEvents(messages), p) == [] <==> |messages| <= p
  {
    var recovered := RecoveredEvents(messages);
    NewerIsSuffix(recovered, p, if p <= |messages| then p else |messages|);
  }

  // ---- The invariant ----

  /** Cached events are numbered consecutively from a positive number. */
  ghost predicate Consecutive(events: seq<Event>) {
    events == [] || (events[0].num >= 1 && NumberedFrom(events, events[0].num))
  }

  ghost predicate EndsAt(events: seq<Event>, num: int) {
    events == [] || events[|events| - 1].num == num
  }

  /** One task's entry: consecutive events in a window of bounded size that ends at its sequence number. */
  ghost predicate EntryNumbered(cfg: Config, s: Log, id: TaskId) {
    && Consecutive(EventsOf(s, id)) && |EventsOf(s, id)| <= cfg.maxEvents + 1
    && (id in s.tasks ==> s.tasks[id].lastNum >= 0 && EndsAt(EventsOf(s, id), s.tasks[id].lastNum))
  }

  ghost predicate Numbered(cfg: Config, s: Log) {
    forall id: TaskId :: EntryNumbered(cfg, s, id)
  }

  ghost predicate SameTask(s: Log, s': Log, id: TaskId) {
    && EventsOf(s', id) == EventsOf(s, id)
    && (id in s'.tasks <==> id in s.tasks)
    && (id in s.tasks ==> s'.tasks[id].lastNum == s.tasks[id].lastNum)
  }

  /** A step that changes one task keeps the invariant exactly when it keeps that task's entry. */
  lemma OneTaskChanges(cfg: Config, s: Log, s': Log, id: TaskId)
    requires Numbered(cfg, s) && forall other :: other != id ==> SameTask(s, s', other)
    ensures Numbered(cfg, s') <==> EntryNumbered(cfg, s', id)
  {
    hide Consecutive;
    hide EndsAt;
    if EntryNumbered(cfg, s', id) {
      forall other: TaskId ensures EntryNumbered(cfg, s', other) {
        assert EntryNumbered(cfg, s, other);
        assert other != id ==> SameTask(s, s', other);
      }
    }
  }

  lemma CreateKeepsNumbering(cfg: Config, s: Log, id: TaskId, provider: string, ms: int)
    requires Numbered(cfg, s)
    ensures Numbered(cfg, CreateTask(s, id, provider, ms)) <==> EventsOf(s, id) == []
  {
    assert EntryNumbered(cfg, s, id);
    OneTaskChanges(cfg, s, CreateTask(s, id, provider, ms), id);
  }

  lemma AddKeepsNumbering(cfg: Config, s: Log, id: TaskId, o: Output)
    requires Numbered(cfg, s)
    ensures Numbered(cfg, AddOutput(cfg, s, id, o))
  {
    if id in s.tasks {
      assert EntryNumbered(cfg, s, id);
      AddOutputKnown(cfg, s, id, o);
      var n := s.tasks[id].lastNum + 1;
      WindowStaysConsecutive(cfg.maxEvents, EventsOf(s, id), Event(n, o.kind, o.ms, o.data));
      OneTaskChanges(cfg, s, AddOutput(cfg, s, id, o), id);
    }
  }

  lemma WindowStaysConsecutive(m: nat, events: seq<Event>, e: Event)
    requires Consecutive(events) && EndsAt(events, e.num - 1) && e.num >= 1
    ensures Consecutive(Window(m, events, e)) && |Window(m, events, e)| <= m + 1 && EndsAt(Window(m, events, e), e.num)
  {
  }

  lemma ReadKeepsEvents(s: Log, id: TaskId, fromSeq: int, now: int)
    ensures GetFromCache(s, id, fromSeq, now).1 == ReadEvents(EventsOf(s, id), fromSeq)
    ensures var s' := GetFromCache(s, id, fromSeq, now).0;
      && s'.tasks == s.tasks && s'.caches.Keys == s.caches.Keys
      && forall other :: other in s.caches ==> s'.caches[other].events == s.caches[other].events
  {
  }

  /** Exactly when an uninterrupted read keeps the numbering: when it does not recover, or recovers into an absent or
      empty cache, or recovers so much that nothing older is kept, or panics. A reader that is up to date with a
      non-empty cache and a shorter stored session breaks it. */
  lemma GetKeepsNumbering(cfg: Config, s: Log, id: TaskId, fromSeq: int, session: Option<seq<Message>>, capacity: nat,
                          ms: int, now: int)
    requires Numbered(cfg, s) && cfg.maxEvents >= 1
    ensures var (panicked, s', _) := GetOrPanic(cfg, s, id, fromSeq, session, capacity, ms, now);
      Numbered(cfg, s') <==>
        || panicked || !NeedsRecovery(s, id, fromSeq, session)
        || EventsOf(s, id) == [] || |session.value| >= cfg.maxEvents
  {
    hide GetIncremental;
    hide GetFromCache;
    hide ReadEvents;
    assert EntryNumbered(cfg, s, id);
    var (panicked, s', _) := GetOrPanic(cfg, s, id, fromSeq, session, capacity, ms, now);
    if panicked {
      LookKeepsTasks(s, id, fromSeq, now);
      assert SameTask(s, s', id);
    } else {
      GetEffect(cfg, s, id, fromSeq, session, ms, now);
      if NeedsRecovery(s, id, fromSeq, session) {
        RecoveredTail(cfg.maxEvents, EventsOf(s, id), RecoveredEvents(session.value));
      }
    }
    OneTaskChanges(cfg, s, s', id);
  }

  lemma LookKeepsTasks(s: Log, id: TaskId, fromSeq: int, now: int)
    ensures forall other :: SameTask(s, GetFromCache(s, id, fromSeq, now).0, other)
  {
    hide GetFromCache;
    hide ReadEvents;
    ReadKeepsEvents(s, id, fromSeq, now);
  }

  /** What an incremental read does to the numbers. */
  lemma GetEffect(cfg: Config, s: Log, id: TaskId, fromSeq: int, session: Option<seq<Message>>, ms: int, now: int)
    ensures var s' := GetIncremental(cfg, s, id, fromSeq, session, ms, now).0;
      && (forall other :: other != id ==> SameTask(s, s', other))
      && (id in s'.tasks <==> id in s.tasks)
      && (if NeedsRecovery(s, id, fromSeq, session) then
            && EventsOf(s', id) == LastN(EventsOf(s, id) + RecoveredEvents(session.value), cfg.maxEvents)
            && (id in s.tasks ==> s'.tasks[id].lastNum == |session.value|)
          else SameTask(s, s', id))
  {
    hide GetFromCache;
    hide ReadEvents;
    hide RecoveredEvents;
    hide LastN;
    hide Newer;
    ReadKeepsEvents(s, id, fromSeq, now);
    var s1 := GetFromCache(s, id, fromSeq, now).0;
    assert forall other :: SameTask(s, s1, other);
  }

  lemma RecoveredTail(m: nat, old_: seq<Event>, recovered: seq<Event>)
    requires m >= 1 && recovered != [] && NumberedFrom(recovered, 1) && Consecutive(old_)
    ensures EndsAt(LastN(old_ + recovered, m), |recovered|)
    ensures Consecutive(LastN(old_ + recovered, m)) <==> old_ == [] || |recovered| >= m
  {
    var all := LastN(old_ + recovered, m);
    if old_ == [] {
      assert old_ + recovered == recovered;
    } else if |recovered| >= m {
      assert all == recovered[|recovered| - m..];
    } else {
      var k := |all| - |recovered|;
      assert all[k - 1] == old_[|old_| - 1] && all[k] == recovered[0];
    }
  }

  // ---- Runs ----

  /** Everything that changes the log: creating a task, an output, a read, a cleanup. */
  datatype Op =
    | Create(id: TaskId, provider: string, ms: int)
    | Add(id: TaskId, output: Output)
    | Get(id: TaskId, fromSeq: int, session: Option<seq<Message>>, ms: int, now: int)
    | Clean(now: int, order: seq<TaskId>)

  ghost function Apply(cfg: Config, s: Log, op: Op): Log {
    match op
    case Create(id, provider, ms) => CreateTask(s, id, provider, ms)
    case Add(id, output) => AddOutput(cfg, s, id, output)
    case Get(id, fromSeq, session, ms, now) => GetIncremental(cfg, s, id, fromSeq, session, ms, now).0
    case Clean(now, order) => Cleanup(cfg, s, now, order).0
  }

  /** A task is created while it has no cached events; a read starts from the beginning, as the server's reads do,
      or does not recover into a cache that holds events; a cleanup sorts by access time. */
  ghost predicate Allowed(cfg: Config, s: Log, op: Op) {
    match op
    case Create(id, _, _) => EventsOf(s, id) == []
    case Add(_, _) => true
    case Get(id, fromSeq, session, _, _) =>
      fromSeq <= 0 || EventsOf(s, id) == [] || !NeedsRecovery(s, id, fromSeq, session)
    case Clean(now, order) => ValidOrder(cfg, s.caches, now, order)
  }

  ghost function Calls(cfg: Config): (Log, Op) -> Log {
    (s: Log, op: Op) => Apply(cfg, s, op)
  }

  ghost predicate AllowedRun(cfg: Config, s: Log, ops: seq<Op>) {
    forall i :: 0 <= i < |ops| ==> Allowed(cfg, Run(Calls(cfg), s, ops[..i]), ops[i])
  }

  const EMPTY_LOG: Log := Log(map[], map[], map[], Stats(0, 0, 0, 0, 0))

  lemma CleanKeepsNumbering(cfg: Config, s: Log, now: int, order: seq<TaskId>)
    requires Numbered(cfg, s)
    ensures Numbered(cfg, Cleanup(cfg, s, now, order).0)
  {
    hide FastPath;
    hide Young;
    hide Survivors;
    SurvivorsOfFastPath(cfg, s.caches, now, order);
    forall id: TaskId ensures EntryNumbered(cfg, Cleanup(cfg, s, now, order).0, id) {
      assert EntryNumbered(cfg, s, id);
    }
  }

  lemma SurvivorsOfFastPath(cfg: Config, caches: Caches, now: int, order: seq<TaskId>)
    ensures FastPath(cfg, caches) ==> Survivors(cfg, caches, now, order) == caches
  {
  }

  /** A read from the beginning recovers only when nothing is cached. */
  lemma ReadFromStartHits(cfg: Config, s: Log, id: TaskId, fromSeq: int)
    requires Numbered(cfg, s) && fromSeq <= 0 && EventsOf(s, id) != []
    ensures ReadEvents(EventsOf(s, id), fromSeq) == Some(EventsOf(s, id))
  {
    assert EntryNumbered(cfg, s, id);
  }

  /** Over every allowed run of calls that do not interrupt each other, the cached events of every task are consecutive,
      and those of a known task end at its sequence number. */
  lemma {:induction false} RunKeepsNumbering(cfg: Config, ops: seq<Op>)
    requires cfg.maxEvents >= 1 && AllowedRun(cfg, EMPTY_LOG, ops)
    ensures Numbered(cfg, Run(Calls(cfg), EMPTY_LOG, ops))
  {
    hide AddOutput;
    hide GetIncremental;
    hide Cleanup;
    hide Numbered;
    hide Run;
    if ops == [] {
      EmptyLogIsNumbered(cfg);
      NoCalls(cfg);
    } else {
      var n := |ops| - 1;
      var init := ops[..n];
      assert forall i :: 0 <= i < n ==> init[..i] == ops[..i];
      RunKeepsNumbering(cfg, init);
      RunPrefix(Calls(cfg), EMPTY_LOG, ops, n);
      assert ops[..n + 1] == ops;
      StepKeepsNumbering(cfg, Run(Calls(cfg), EMPTY_LOG, init), ops[n]);
    }
  }

  lemma NoCalls(cfg: Config)
    ensures Run(Calls(cfg), EMPTY_LOG, []) == EMPTY_LOG
  {
  }

  lemma EmptyLogIsNumbered(cfg: Config)
    ensures Numbered(cfg, EMPTY_LOG)
  {
  }

  /** The allowed reads are among them, as an array with room never panics. */
  lemma AllowedGetKeepsNumbering(cfg: Config, s: Log, id: TaskId, fromSeq: int, session: Option<seq<Message>>,
                                 ms: int, now: int)
    requires Numbered(cfg, s) && cfg.maxEvents >= 1
    requires fromSeq <= 0 && EventsOf(s, id) != [] ==> ReadEvents(EventsOf(s, id), fromSeq).Some?
    requires fromSeq <= 0 || EventsOf(s, id) == [] || !NeedsRecovery(s, id, fromSeq, session)
    ensures Numbered(cfg, GetIncremental(cfg, s, id, fromSeq, session, ms, now).0)
  {
    hide GetIncremental;
    hide ReadEvents;
    var room := |EventsOf(s, id)| + (if session.Some? then |session.value| else 0);
    GetKeepsNumbering(cfg, s, id, fromSeq, session, room, ms, now);
  }

  lemma StepKeepsNumbering(cfg: Config, s: Log, op: Op)
    requires cfg.maxEvents >= 1 && Numbered(cfg, s) && Allowed(cfg, s, op)
    ensures Numbered(cfg, Apply(cfg, s, op))
  {
    hide AddOutput;
    hide GetIncremental;
    hide Cleanup;
    match op
    case Create(id, provider, ms) => CreateKeepsNumbering(cfg, s, id, provider, ms);
    case Add(id, output) => AddKeepsNumbering(cfg, s, id, output);
    case Clean(now, order) => CleanKeepsNumbering(cfg, s, now, order);
    case Get(id, fromSeq, session, ms, now) =>
      if fromSeq <= 0 && EventsOf(s, id) != [] { ReadFromStartHits(cfg, s, id, fromSeq); }
      AllowedGetKeepsNumbering(cfg, s, id, fromSeq, session, ms, now);
  }

  /** In a state of an allowed run, a read from the beginning of a known task that recovers n messages returns them
      numbered 1 to n, and the next output is numbered n + 1 and follows them in the cache. */
  lemma RecoveryThenOutput(cfg: Config, s: Log, id: TaskId, messages: seq<Message>, ms: int, now: int, o: Output)
    requires Numbered(cfg, s) && cfg.maxEvents >= 1
    requires id in s.tasks && EventsOf(s, id) == [] && messages != []
    ensures var (s1, events) := GetIncremental(cfg, s, id, 0, Some(messages), ms, now);
      && events == RecoveredEvents(messages)
      && id in s1.tasks && s1.tasks[id].lastNum == |messages|
      && EventsOf(AddOutput(cfg, s1, id, o), id)
         == LastN(RecoveredEvents(messages), cfg.maxEvents) + [Event(|messages| + 1, o.kind, o.ms, o.data)]
  {
    hide GetIncremental;
    hide RecoveredEvents;
    GetReturns(cfg, s, id, messages, ms, now);
    var s1 := GetIncremental(cfg, s, id, 0, Some(messages), ms, now).0;
    OutputAfterWindow(cfg, s1, id, RecoveredEvents(messages), o);
  }

  lemma OutputAfterWindow(cfg: Config, s: Log, id: TaskId, events: seq<Event>, o: Output)
    requires id in s.tasks && EventsOf(s, id) == LastN(events, cfg.maxEvents)
    ensures EventsOf(AddOutput(cfg, s, id, o), id)
      == LastN(events, cfg.maxEvents) + [Event(s.tasks[id].lastNum + 1, o.kind, o.ms, o.data)]
  {
    hide AddOutput;
    AddOutputKnown(cfg, s, id, o);
    LastNTwice(events, cfg.maxEvents);
  }

  lemma LastNTwice(events: seq<Event>, n: nat)
    ensures LastN(LastN(events, n), n) == LastN(events, n)
  {
  }

  lemma GetReturns(cfg: Config, s: Log, id: TaskId, messages: seq<Message>, ms: int, now: int)
    requires EventsOf(s, id) == [] && messages != []
    ensures var (s', events) := GetIncremental(cfg, s, id, 0, Some(messages), ms, now);
      && events == RecoveredEvents(messages)
      && EventsOf(s', id) == LastN(RecoveredEvents(messages), cfg.maxEvents)
      && (id in s.tasks ==> id in s'.tasks && s'.tasks[id].lastNum == |messages|)
  {
    var recovered := RecoveredEvents(messages);
    GetEffect(cfg, s, id, 0, Some(messages), ms, now);
    NewerIsSuffix(recovered, 0, 0);
    assert [] + recovered == recovered;
  }

  /** A cleanup that gets past age eviction with something left keeps the state of exactly the known tasks it keeps
      cached. An evicted task starts over: its outputs are refused until it is created again, and then the cache holds
      the new log alone, numbered from one, whatever number the task had reached. */
  lemma EvictedTaskStartsOver(cfg: Config, s: Log, now: int, order: seq<TaskId>, id: TaskId, o: Output,
                              provider: string, ms: int, outs: seq<Output>)
    requires !FastPath(cfg, s.caches) && Young(cfg, s.caches, now) != map[]
    ensures var s' := Cleanup(cfg, s, now, order).0;
      && (id in s'.tasks <==> id in s.tasks && id in s'.caches)
      && (id in s'.tasks ==> s'.tasks[id] == s.tasks[id])
      && (id in s'.devices <==> id in s.devices && (id in s.tasks ==> id in s'.caches))
      && (id in s.tasks && id !in s'.caches ==>
        && AddOutput(cfg, s', id, o) == s'
        && var again := AddOutputs(cfg, CreateTask(s', id, provider, ms), id, outs);
           && EventsOf(again, id) == LastN(FullLog(outs), cfg.maxEvents + 1)
           && id in again.tasks && again.tasks[id].lastNum == |outs|)
  {
    hide FastPath;
    hide Young;
    hide Survivors;
    hide FullLog;
    hide AddOutputs;
    var s' := Cleanup(cfg, s, now, order).0;
    if id in s.tasks && id !in s'.caches {
      CacheIsLogSuffix(cfg, CreateTask(s', id, provider, ms), id, outs);
      NothingAdded(cfg, CreateTask(s', id, provider, ms), id);
    }
  }

  lemma NothingAdded(cfg: Config, s: Log, id: TaskId)
    ensures AddOutputs(cfg, s, id, []) == s && FullLog([]) == []
  {
  }

  lemma {:induction false} OutputsKeepCreation(cfg: Config, s: Log, id: TaskId, outs: seq<Output>)
    requires id in s.caches
    ensures var s' := AddOutputs(cfg, s, id, outs);
      id in s'.caches && s'.caches[id].createdAt == s.caches[id].createdAt
    decreases |outs|
  {
    if outs != [] {
      hide Window;
      OutputsKeepCreation(cfg, s, id, outs[..|outs| - 1]);
    }
  }

  /** A cache that a recovery creates never gets a creation time, so a limit on age takes it for as old as the zero time
      whatever is added to it: the next cleanup past the fast path drops it, and the task's state with it unless no cache
      is young enough. */
  lemma RecoveredCacheIsOld(cfg: Config, s: Log, id: TaskId, fromSeq: int, messages: seq<Message>, ms: int, now: int,
                            outs: seq<Output>, later: int, order: seq<TaskId>)
    requires id !in s.caches && messages != []
    ensures var s1 := AddOutputs(cfg, GetIncremental(cfg, s, id, fromSeq, Some(messages), ms, now).0, id, outs);
      var s2 := Cleanup(cfg, s1, later, order).0;
      && id in s1.caches
      && (id in Young(cfg, s1.caches, later) <==> cfg.maxAge <= 0 || later - ZERO_TIME <= cfg.maxAge)
      && (!FastPath(cfg, s1.caches) && 0 < cfg.maxAge < later - ZERO_TIME ==>
           && id !in s2.caches
           && (id in s2.tasks <==> id in s1.tasks && Young(cfg, s1.caches, later) == map[]))
  {
    hide AddOutputs;
    hide RecoveredEvents;
    hide FastPath;
    hide EvictInOrder;
    hide LruRuns;
    OutputsKeepCreation(cfg, GetIncremental(cfg, s, id, fromSeq, Some(messages), ms, now).0, id, outs);
  }
}
