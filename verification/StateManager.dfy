/** The state manager itself: the event slice that is shifted in place, and the manager whose methods update its
    maps and counters. Every method is proved against the function of EventLog, Recovery or Eviction that says what
    it does. */
module StateManager {
  import opened Json
  import opened EventLog
  import opened Eviction
  import opened Recovery

  /** The slice of one task's cached events: a backing array and how much of it is in use. */
  class EventSlice {
    var buf: array<Event>
    var len: nat
    ghost var events: seq<Event>  // the part of the array in use

    ghost predicate Valid()
      reads this, buf
    {
      len <= buf.Length && events == buf[..len]
    }

    constructor (capacity: nat)
      ensures Valid() && fresh(buf) && buf.Length == capacity && events == []
    {
      buf := new Event[capacity];
      len, events := 0, [];
    }

    /** Slides the last `n` events to the front of the array, in place. */
    method SlideTo(n: nat)
      requires Valid() && n <= len
      modifies `len, `events, buf
      ensures Valid() && events == LastN(old(events), n)
    {
      var from, a := len - n, buf;
      ghost var before := a[..];
      for i := 0 to n
        invariant len == old(len) && buf == a && events == old(events)
        invariant a[..i] == before[from..from + i]
        invariant forall k :: i <= k < a.Length ==> a[k] == before[k]
      {
        a[i] := a[from + i];
      }
      len := n;
      events := events[from..];
      assert before[from..from + n] == before[..from + n][from..];
    }

    /** Moves the events to a new array of the given capacity. */
    method Reallocate(capacity: nat)
      requires Valid() && len <= capacity
      modifies `buf
      ensures Valid() && fresh(buf) && buf.Length == capacity
    {
      var grown, a, n := new Event[capacity], buf, len;
      for i := 0 to n
        invariant buf == a
        invariant grown[..i] == a[..i]
      {
        grown[i] := a[i];
      }
      buf := grown;
    }

    method Append(e: Event)
      requires Valid()
      modifies `buf, `len, `events, buf
      ensures Valid() && (buf == old(buf) || fresh(buf))
      ensures events == old(events) + [e]
    {
      if len == buf.Length {
        Reallocate(2 * len + 1);
      }
      buf[len] := e;
      len := len + 1;
      events := events + [e];
    }

    method AppendAll(more: seq<Event>)
      requires Valid()
      modifies `buf, `len, `events, buf
      ensures Valid() && (buf == old(buf) || fresh(buf))
      ensures events == old(events) + more
    {
      assert more[..0] == [];
      for i := 0 to |more|
        invariant Valid() && (buf == old(buf) || fresh(buf))
        invariant events == old(events) + more[..i]
      {
        Append(more[i]);
        assert more[..i + 1] == more[..i] + [more[i]];
      }
      assert more[..|more|] == more;
    }

    /** The window of an output: a full slice is cut to the configured size in place, then the event is appended. */
    method Push(e: Event, maxEvents: nat) returns (full: bool)
      requires Valid()
      modifies this, buf
      ensures Valid() && (buf == old(buf) || fresh(buf))
      ensures full == (|old(events)| >= maxEvents)
      ensures events == Window(maxEvents, old(events), e)
    {
      full := len >= maxEvents;
      if full {
        SlideTo(maxEvents);
      }
      Append(e);
    }

    /** Recovered events go behind what is there, and the result is cut to the configured size. The reallocation panics
        exactly when the slice is over that size and has no room left for the recovered events. */
    method Populate(recovered: seq<Event>, maxEvents: nat) returns (panicked: bool)
      requires Valid()
      modifies this, buf
      ensures panicked <==> old(len) > maxEvents && old(buf.Length) < old(len) + |recovered|
      ensures panicked ==> Valid() && events == old(events)
      ensures !panicked ==> Valid() && events == LastN(old(events) + recovered, maxEvents)
    {
      if buf.Length < len + |recovered| {
        var newCap := buf.Length + |recovered|;
        if newCap > maxEvents {
          newCap := maxEvents;
        }
        if newCap < len { return true; }
        Reallocate(newCap);
      }
      AppendAll(recovered);
      if len > maxEvents {
        SlideTo(maxEvents);
      }
      return false;
    }
  }

  /** The first index whose event is newer than `fromSeq`, by binary search. */
  method BinarySearchSeq(events: seq<Event>, fromSeq: int) returns (idx: nat)
    ensures idx == SearchIndex(events, fromSeq, 0, |events|)
  {
    var lo, hi := 0, |events|;
    while lo < hi
      invariant lo <= hi <= |events|
      invariant SearchIndex(events, fromSeq, lo, hi) == SearchIndex(events, fromSeq, 0, |events|)
    {
      var mid := (lo + hi) / 2;
      if !(events[mid].num > fromSeq) {
        lo := mid + 1;
      } else {
        hi := mid;
      }
    }
    return lo;
  }

  datatype LruEntry = LruEntry(id: TaskId, lastAccess: int, memory: nat)

  class Manager {
    const cfg: Config
    var outputCache: map<TaskId, Cache>
    var taskStates: map<TaskId, TaskState>
    var devices: map<TaskId, seq<string>>
    var stats: Stats

    function Abs(): Log
      reads this
    {
      Log(taskStates, outputCache, devices, stats)
    }

    constructor (cfg: Config)
      ensures this.cfg == cfg && Abs() == EMPTY_LOG
    {
      this.cfg := cfg;
      outputCache, taskStates, devices := map[], map[], map[];
      stats := Stats(0, 0, 0, 0, 0);
    }

    method CreateTask(id: TaskId, provider: string, ms: int)
      modifies this
      ensures Abs() == EventLog.CreateTask(old(Abs()), id, provider, ms)
      ensures taskStates == old(taskStates)[id := TaskState(provider, "running", ms, ms, 0)]
      ensures outputCache == old(outputCache) && devices == old(devices) && stats == old(stats)
    {
      taskStates := taskStates[id := TaskState(provider, "running", ms, ms, 0)];
    }

    method NextSeqWithTime(id: TaskId, ms: int) returns (num: Option<int>)
      modifies this
      ensures (Abs(), num) == NextSeq(old(Abs()), id, ms)
      ensures id !in old(taskStates) ==> num == None && taskStates == old(taskStates)
      ensures id in old(taskStates) ==>
        && num == Some(old(taskStates)[id].lastNum + 1)
        && taskStates == old(taskStates)[id := old(taskStates)[id].(lastNum := num.value, updatedAt := ms)]
    {
      if id !in taskStates { return None; }
      var state := taskStates[id];
      state := state.(lastNum := state.lastNum + 1);
      state := state.(updatedAt := ms);
      taskStates := taskStates[id := state];
      return Some(state.lastNum);
    }

    method UpdateCache(id: TaskId, event: Event, now: int)
      modifies this
      ensures Abs() == EventLog.UpdateCache(cfg, old(Abs()), id, event, now)
    {
      if id !in outputCache {
        outputCache := outputCache[id := Cache([], now, now)];
        stats := stats.(size := stats.size + 1);
      }
      var cache := outputCache[id];
      if |cache.events| >= cfg.maxEvents {
        cache := cache.(events := cache.events[|cache.events| - cfg.maxEvents..]);
        stats := stats.(evictions := stats.evictions + 1);
      }
      cache := cache.(events := cache.events + [event]);
      cache := cache.(lastAccess := now);
      outputCache := outputCache[id := cache];
      stats := stats.(updates := stats.updates + 1);
    }

    /** The whole call: a number, then the append; an unknown task changes nothing. */
    method AddOutput(id: TaskId, o: Output) returns (ok: bool)
      modifies this
      ensures ok == (id in old(taskStates))
      ensures Abs() == EventLog.AddOutput(cfg, old(Abs()), id, o)
    {
      var num := NextSeqWithTime(id, o.ms);
      if num.None? { return false; }
      UpdateCache(id, Event(num.value, o.kind, o.ms, o.data), o.now);
      return true;
    }

    method GetFromCache(id: TaskId, fromSeq: int, now: int) returns (result: Option<seq<Event>>)
      modifies this
      ensures (Abs(), result) == Recovery.GetFromCache(old(Abs()), id, fromSeq, now)
    {
      if id !in outputCache || |outputCache[id].events| == 0 {
        stats := stats.(misses := stats.misses + 1);
        return None;
      }
      var cache := outputCache[id];
      var eventCount := |cache.events|;
      if cache.events[eventCount - 1].num <= fromSeq {
        stats := stats.(hits := stats.hits + 1);
        return None;
      }
      var firstSeq := cache.events[0].num;
      if fromSeq < firstSeq {
        stats := stats.(hits := stats.hits + 1);
        return Some(cache.events);
      }
      var idx := BinarySearchSeq(cache.events, fromSeq);
      if idx >= eventCount {
        stats := stats.(hits := stats.hits + 1);
        return None;
      }
      if now - cache.lastAccess > ACCESS_GRANULARITY {
        outputCache := outputCache[id := cache.(lastAccess := now)];
      }
      stats := stats.(hits := stats.hits + 1);
      return Some(cache.events[idx..]);
    }

    /** Puts recovered events into the cache, whose array has this capacity. */
    method PopulateCache(id: TaskId, events: seq<Event>, capacity: nat) returns (panicked: bool)
      requires capacity >= |EventsOf(Abs(), id)|
      modifies this
      ensures panicked <==> PopulatePanics(cfg, EventsOf(old(Abs()), id), |events|, capacity)
      ensures Abs() == if panicked then old(Abs()) else Populate(cfg, old(Abs()), id, events)
    {
      var cached := if id in outputCache then |outputCache[id].events| else 0;
      if capacity < cached + |events| {
        var newCap := capacity + |events|;
        if newCap > cfg.maxEvents {
          newCap := cfg.maxEvents;
        }
        if newCap < cached { return true; }
      }
      if id !in outputCache {
        outputCache := outputCache[id := Cache([], ZERO_TIME, ZERO_TIME)];
      }
      var cache := outputCache[id];
      cache := cache.(events := cache.events + events);
      if |cache.events| > cfg.maxEvents {
        cache := cache.(events := cache.events[|cache.events| - cfg.maxEvents..]);
      }
      outputCache := outputCache[id := cache];
      return false;
    }

    /** The last section of a recovering read. */
    method StoreSeq(id: TaskId, maxSeq: int, ms: int)
      modifies this
      ensures Abs() == SetSeq(old(Abs()), id, maxSeq, ms)
      ensures id !in old(taskStates) ==> taskStates == old(taskStates)
      ensures id in old(taskStates) ==>
        taskStates == old(taskStates)[id := old(taskStates)[id].(lastNum := maxSeq, updatedAt := ms)]
      ensures outputCache == old(outputCache) && devices == old(devices) && stats == old(stats)
    {
      if id in taskStates {
        taskStates := taskStates[id := taskStates[id].(lastNum := maxSeq, updatedAt := ms)];
      }
    }

    /** An incremental read that nothing interrupts; `session` is the stored session, when a provider and a session id
        are set and it can be read, and `capacity` is that of the array of the cached events. */
    method GetIncrementalOutput(id: TaskId, fromSeq: int, session: Option<seq<Message>>, capacity: nat, ms: int, now: int)
      returns (events: seq<Event>, panicked: bool)
      requires capacity >= |EventsOf(Abs(), id)|
      modifies this
      ensures (panicked, Abs(), events) == GetOrPanic(cfg, old(Abs()), id, fromSeq, session, capacity, ms, now)
    {
      hide Touch;
      hide RecoveredEvents;
      hide ReadEvents;
      events, panicked := [], false;
      LookLeavesEvents(Abs(), id, fromSeq, now);
      var cached := GetFromCache(id, fromSeq, now);
      if cached.Some? { return cached.value, false; }
      var recovered: seq<Event> := [];
      if session.Some? {
        recovered := ReadSession(session.value);
      }
      if |recovered| > 0 {
        panicked := PopulateCache(id, recovered, capacity);
        if panicked { return; }
        var maxSeq := MaxSeq(recovered);
        StoreSeq(id, maxSeq, ms);
        events := FilterNewer(recovered, fromSeq);
      }
    }

    /** The estimated memory of all caches, whatever the order of iteration. */
    method TotalMemory() returns (total: nat)
      ensures total == Memory(outputCache)
    {
      total := 0;
      var ids := outputCache.Keys;
      ghost var rest := outputCache;
      NoMemory();
      while ids != {}
        invariant rest.Keys == ids && IsPart(rest, outputCache)
        invariant total + Memory(rest) == Memory(outputCache)
        decreases ids
      {
        var id :| id in ids;
        MemoryWithout(rest, id);
        total := total + |outputCache[id].events| * AVG_EVENT_SIZE;
        ids := ids - {id};
        rest := rest - {id};
      }
      assert rest == map[];
    }

    /** Phase one: drops what is too old and says how much that was. */
    method EvictAged(now: int) returns (evicted: nat)
      modifies `outputCache
      ensures outputCache == Young(cfg, old(outputCache), now)
      ensures evicted == |old(outputCache)| - |outputCache|
    {
      evicted := 0;
      if cfg.maxAge > 0 {
        var ids := outputCache.Keys;
        while ids != {}
          invariant ids <= outputCache.Keys && IsPart(outputCache, old(outputCache))
          invariant forall id :: id in old(outputCache) ==>
            (id in outputCache <==> id in ids || now - old(outputCache)[id].createdAt <= cfg.maxAge)
          invariant evicted == |old(outputCache)| - |outputCache|
          decreases ids
        {
          var id :| id in ids;
          if now - outputCache[id].createdAt > cfg.maxAge {
            Shrinks(outputCache, id);
            outputCache := outputCache - {id};
            evicted := evicted + 1;
          }
          ids := ids - {id};
        }
      }
    }

    /** The caches in order of last access, oldest first. */
    method EntriesByAccess() returns (entries: seq<LruEntry>)
      ensures DescribesInOrder(outputCache, entries)
    {
      entries := [];
      var ids := outputCache.Keys;
      ghost var listed: Caches := map[];
      while ids != {}
        invariant ids <= outputCache.Keys && listed.Keys == outputCache.Keys - ids && IsPart(listed, outputCache)
        invariant DescribesInOrder(listed, entries)
        decreases ids
      {
        var id :| id in ids;
        var cache := outputCache[id];
        var entry := LruEntry(id, cache.lastAccess, |cache.events| * AVG_EVENT_SIZE);
        InsertKeepsOrder(listed, entries, entry, cache);
        entries := InsertByAccess(entries, entry);
        ids := ids - {id};
        listed := listed[id := cache];
      }
      assert listed == outputCache;
    }

    /** Phase two: drops entries from the front until both targets are met, on running totals. */
    method EvictOldest(entries: seq<LruEntry>, totalMemory: nat) returns (evicted: nat)
      requires DescribesInOrder(outputCache, entries) && totalMemory == Memory(outputCache)
      modifies `outputCache
      ensures outputCache == EvictInOrder(cfg, old(outputCache), Ids(entries))
      ensures evicted == |old(outputCache)| - |outputCache|
    {
      hide DescribesInOrder;
      hide EvictInOrder;
      hide Memory;
      hide Ids;
      var targetTaskCount, targetMemory := cfg.maxTasks * 3 / 4, cfg.maxMemory * 3 / 4;
      var currentTasks, currentMemory := |outputCache|, totalMemory;
      evicted := 0;
      var i := 0;
      while i < |entries| && !(currentTasks <= targetTaskCount && currentMemory <= targetMemory)
        invariant i <= |entries| && evicted == i
        invariant DescribesInOrder(outputCache, entries[i..])
        invariant currentTasks == |outputCache| && currentMemory == Memory(outputCache)
        invariant |outputCache| == |old(outputCache)| - i
        invariant EvictInOrder(cfg, outputCache, Ids(entries[i..])) == EvictInOrder(cfg, old(outputCache), Ids(entries))
      {
        var entry := entries[i];
        assert entries[i..][0] == entry && entries[i..][1..] == entries[i + 1..];
        EvictFront(cfg, outputCache, entries[i..]);
        outputCache := outputCache - {entry.id};
        evicted := evicted + 1;
        currentTasks := currentTasks - 1;
        currentMemory := currentMemory - entry.memory;
        i := i + 1;
      }
      EvictionStops(cfg, outputCache, entries[i..]);
    }

    /** Phase three: drops the state and the devices of every task that has no cache. */
    method DropStaleTasks()
      modifies `taskStates, `devices
      ensures taskStates == old(taskStates) - (old(taskStates).Keys - outputCache.Keys)
      ensures devices == old(devices) - (old(taskStates).Keys - outputCache.Keys)
    {
      var ids := taskStates.Keys;
      ghost var dropped: set<TaskId> := {};
      while ids != {}
        invariant dropped == (old(taskStates).Keys - ids) - outputCache.Keys && ids <= old(taskStates).Keys
        invariant taskStates == old(taskStates) - dropped && devices == old(devices) - dropped
        decreases ids
      {
        var id :| id in ids;
        if id !in outputCache {
          taskStates, devices := taskStates - {id}, devices - {id};
          dropped := dropped + {id};
        }
        ids := ids - {id};
      }
    }

    /** The end of a cleanup that leaves something: the counters, then phase three. */
    method Settle(evicted: nat, ghost before: Log)
      requires taskStates == before.tasks && devices == before.devices && stats == before.stats
      requires evicted == |before.caches| - |outputCache|
      modifies `stats, `taskStates, `devices
      ensures Abs() == Settled(before, outputCache, false)
    {
      stats := stats.(evictions := stats.evictions + evicted, size := |outputCache|);
      DropStaleTasks();
    }

    /** A cleanup, for whatever order by last access its sorting happens to choose. */
    method CleanupCache(now: int) returns (evicted: nat, ghost order: seq<TaskId>)
      modifies this
      ensures ValidOrder(cfg, old(outputCache), now, order)
      ensures Abs() == Cleanup(cfg, old(Abs()), now, order).0 && evicted == Cleanup(cfg, old(Abs()), now, order).1
    {
      hide Cleanup;
      hide Survivors;
      hide Young;
      hide Memory;
      hide ValidOrder;
      hide Settled;
      hide EvictInOrder;
      hide LruOrder;
      hide LruRuns;
      ghost var s := Abs();
      order := [];
      var cacheCount := |outputCache|;
      if cacheCount == 0 {
        FastCleanup(cfg, s, now, order);
        return 0, order;
      }
      var totalMemory := TotalMemory();
      if cacheCount < cfg.maxTasks / 4 && totalMemory < cfg.maxMemory / 2 {
        FastCleanup(cfg, s, now, order);
        return 0, order;
      }
      evicted := EvictAged(now);
      var remaining := |outputCache|;
      ghost var young := outputCache;
      if remaining == 0 {
        EmptyingCleanup(cfg, s, now, order, young);
        stats := stats.(evictions := stats.evictions + evicted, size := 0);
        return;
      }
      totalMemory := TotalMemory();
      if remaining > cfg.maxTasks || totalMemory > cfg.maxMemory {
        var more;
        more, order := EvictLru(totalMemory);
        evicted := evicted + more;
      }
      FullCleanup(cfg, s, now, order, young, outputCache);
      Settle(evicted, s);
    }

    /** Phase two as a whole: sort, then evict. */
    method EvictLru(totalMemory: nat) returns (evicted: nat, ghost order: seq<TaskId>)
      requires totalMemory == Memory(outputCache)
      modifies `outputCache
      ensures LruOrder(old(outputCache), order)
      ensures outputCache == EvictInOrder(cfg, old(outputCache), order)
      ensures evicted == |old(outputCache)| - |outputCache|
    {
      var entries := EntriesByAccess();
      order := Ids(entries);
      EntriesAreLruOrder(outputCache, entries);
      evicted := EvictOldest(entries, totalMemory);
    }
  }

  // The three ways a cleanup can end.

  lemma LookLeavesEvents(s: Log, id: TaskId, fromSeq: int, now: int)
    ensures EventsOf(Recovery.GetFromCache(s, id, fromSeq, now).0, id) == EventsOf(s, id)
  {
    ReadKeepsEvents(s, id, fromSeq, now);
  }

  lemma FastCleanup(cfg: Config, s: Log, now: int, order: seq<TaskId>)
    requires FastPath(cfg, s.caches)
    ensures Cleanup(cfg, s, now, order) == (s, 0) && ValidOrder(cfg, s.caches, now, order)
  {
  }

  lemma EmptyingCleanup(cfg: Config, s: Log, now: int, order: seq<TaskId>, young: Caches)
    requires !FastPath(cfg, s.caches) && young == Young(cfg, s.caches, now) && |young| == 0
    ensures ValidOrder(cfg, s.caches, now, order)
    ensures Cleanup(cfg, s, now, order) == (Log(s.tasks, young, s.devices,
      s.stats.(evictions := s.stats.evictions + |s.caches|, size := 0)), |s.caches|)
  {
    hide Young;
    assert young == map[];
  }

  lemma FullCleanup(cfg: Config, s: Log, now: int, order: seq<TaskId>, young: Caches, kept: Caches)
    requires !FastPath(cfg, s.caches) && young == Young(cfg, s.caches, now) && |young| != 0
    requires if WithinLimits(cfg, young) then kept == young
             else LruOrder(young, order) && kept == EvictInOrder(cfg, young, order)
    ensures ValidOrder(cfg, s.caches, now, order)
    ensures Cleanup(cfg, s, now, order) == (Settled(s, kept, false), |s.caches| - |kept|)
  {
    hide Young;
    hide Memory;
    hide LruOrder;
    hide Settled;
    assert young != map[];
  }

  // ---- The loops outside the manager ----

  method MaxSeq(events: seq<Event>) returns (maxSeq: int)
    requires events != [] && NumberedFrom(events, 1)
    ensures maxSeq == |events|
  {
    maxSeq := 0;
    for i := 0 to |events|
      invariant maxSeq == i
    {
      if events[i].num > maxSeq {
        maxSeq := events[i].num;
      }
    }
  }

  method FilterNewer(events: seq<Event>, fromSeq: int) returns (filtered: seq<Event>)
    ensures filtered == Newer(events, fromSeq)
  {
    hide Newer;
    filtered := [];
    for i := 0 to |events|
      invariant filtered + Newer(events[i..], fromSeq) == Newer(events, fromSeq)
    {
      NewerStep(events, i, fromSeq);
      if events[i].num > fromSeq {
        filtered := filtered + [events[i]];
      }
    }
    NewerStep(events, |events|, fromSeq);
  }

  lemma NewerStep(events: seq<Event>, i: nat, fromSeq: int)
    requires i <= |events|
    ensures i == |events| ==> Newer(events[i..], fromSeq) == []
    ensures i < |events| ==>
      Newer(events[i..], fromSeq) == (if events[i].num > fromSeq then [events[i]] else []) + Newer(events[i + 1..], fromSeq)
  {
    if i < |events| { assert events[i..][1..] == events[i + 1..]; }
  }

  function Ids(entries: seq<LruEntry>): (ids: seq<TaskId>)
    ensures |ids| == |entries| && forall i :: 0 <= i < |entries| ==> ids[i] == entries[i].id
  {
    if entries == [] then [] else [entries[0].id] + Ids(entries[1..])
  }

  ghost predicate Describes(c: Cache, entry: LruEntry) {
    entry.lastAccess == c.lastAccess && entry.memory == Bytes(c)
  }

  /** The entries describe the caches, each once, and stand in order of last access. */
  ghost predicate DescribesInOrder(caches: Caches, entries: seq<LruEntry>) {
    if entries == [] then caches == map[]
    else
      && entries[0].id in caches && Describes(caches[entries[0].id], entries[0])
      && (forall id :: id in caches ==> entries[0].lastAccess <= caches[id].lastAccess)
      && DescribesInOrder(caches - {entries[0].id}, entries[1..])
  }

  lemma {:induction false} EvictFront(cfg: Config, caches: Caches, entries: seq<LruEntry>)
    requires entries != [] && DescribesInOrder(caches, entries) && !OnTarget(cfg, caches)
    ensures var id := entries[0].id;
      && id in caches && |caches - {id}| == |caches| - 1
      && Memory(caches) == entries[0].memory + Memory(caches - {id})
      && DescribesInOrder(caches - {id}, entries[1..])
      && EvictInOrder(cfg, caches, Ids(entries)) == EvictInOrder(cfg, caches - {id}, Ids(entries[1..]))
  {
    var id := entries[0].id;
    MemoryWithout(caches, id);
    Shrinks(caches, id);
    assert Ids(entries)[1..] == Ids(entries[1..]);
  }

  lemma EvictionStops(cfg: Config, caches: Caches, entries: seq<LruEntry>)
    requires entries == [] || OnTarget(cfg, caches)
    ensures EvictInOrder(cfg, caches, Ids(entries)) == caches
  {
  }

  /** Where sorting by last access puts one more entry. */
  function InsertByAccess(entries: seq<LruEntry>, entry: LruEntry): seq<LruEntry> {
    if entries == [] then [entry]
    else if entries[0].lastAccess <= entry.lastAccess then [entries[0]] + InsertByAccess(entries[1..], entry)
    else [entry] + entries
  }

  lemma {:induction false} InsertKeepsOrder(caches: Caches, entries: seq<LruEntry>, entry: LruEntry, cache: Cache)
    requires DescribesInOrder(caches, entries) && entry.id !in caches && Describes(cache, entry)
    ensures DescribesInOrder(caches[entry.id := cache], InsertByAccess(entries, entry))
  {
    var all := caches[entry.id := cache];
    assert all - {entry.id} == caches;
    if entries != [] {
      var head := entries[0];
      if head.lastAccess <= entry.lastAccess {
        InsertKeepsOrder(caches - {head.id}, entries[1..], entry, cache);
        assert all - {head.id} == (caches - {head.id})[entry.id := cache];
        assert ([head] + InsertByAccess(entries[1..], entry))[1..] == InsertByAccess(entries[1..], entry);
      } else {
        assert ([entry] + entries)[1..] == entries;
      }
    } else {
      assert [entry][1..] == [];
    }
  }

  lemma {:induction false} EntriesAreLruOrder(caches: Caches, entries: seq<LruEntry>)
    requires DescribesInOrder(caches, entries)
    ensures LruOrder(caches, Ids(entries))
  {
    if entries != [] {
      var id := entries[0].id;
      EntriesAreLruOrder(caches - {id}, entries[1..]);
      LruOrderCons(caches, id, Ids(entries[1..]));
    }
  }

  lemma LruOrderCons(caches: Caches, id: TaskId, order: seq<TaskId>)
    requires id in caches && LruOrder(caches - {id}, order)
    requires forall other :: other in caches ==> caches[id].lastAccess <= caches[other].lastAccess
    ensures LruOrder(caches, [id] + order)
  {
    var all := [id] + order;
    forall i | 0 <= i < |all| ensures all[i] in caches {
      if i > 0 { assert order[i - 1] in order; }
    }
    assert forall other :: other in all <==> other == id || other in order;
    forall i, j | 0 <= i < j < |all| ensures all[i] != all[j] && caches[all[i]].lastAccess <= caches[all[j]].lastAccess {
      assert all[j] == order[j - 1] && order[j - 1] in order;
      if i > 0 { assert all[i] == order[i - 1] && order[i - 1] in order; }
    }
  }
}
