/** Creation and access times: what sets them, and what they decide in a cleanup. */
module CacheAges {
  import opened EventLog
  import opened Eviction
  import opened Recovery
  import opened Runs

  // ---- What sets the times and the counters ----

  /** An output of a known task is an access at its time, and the creation if nothing was cached; it is counted as an
      update, and as an eviction when the window was full. */
  lemma OutputIsAccess(cfg: Config, s: Log, id: TaskId, o: Output)
    requires id in s.tasks
    ensures var s' := AddOutput(cfg, s, id, o);
      && id in s'.caches && s'.caches[id].lastAccess == o.now
      && s'.caches[id].createdAt == (if id in s.caches then s.caches[id].createdAt else o.now)
      && s'.caches.Keys == s.caches.Keys + {id} && s'.tasks.Keys == s.tasks.Keys
      && (forall other :: other in s.caches && other != id ==> s'.caches[other] == s.caches[other])
      && s'.devices == s.devices && s'.stats.hits == s.stats.hits && s'.stats.misses == s.stats.misses
      && s'.stats.updates == s.stats.updates + 1
      && s'.stats.evictions - s.stats.evictions == (if |EventsOf(s, id)| >= cfg.maxEvents then 1 else 0)
      && s'.stats.size - s.stats.size == (if id in s.caches then 0 else 1)
  {
  }

  /** After n outputs the cache is as old as the first and was accessed at the last; n updates have been counted, and an
      eviction for every output beyond the first maxEvents. */
  lemma {:induction false} OutputsAge(cfg: Config, s: Log, id: TaskId, outs: seq<Output>)
    requires id in s.tasks && s.tasks[id].lastNum == 0 && id !in s.caches && outs != []
    ensures var s', n := AddOutputs(cfg, s, id, outs), |outs|;
      && id in s'.tasks && id in s'.caches
      && s'.caches[id].createdAt == outs[0].now && s'.caches[id].lastAccess == outs[n - 1].now
      && s'.stats == s.stats.(
           updates := s.stats.updates + n,
           evictions := s.stats.evictions + (if n <= cfg.maxEvents then 0 else n - cfg.maxEvents),
           size := s.stats.size + 1)
  {
    hide AddOutput;
    hide EventsOf;
    var n := |outs| - 1;
    var init := outs[..n];
    var s1 := AddOutputs(cfg, s, id, init);
    HowManyCached(cfg, s, id, init);
    OutputIsAccess(cfg, s1, id, outs[n]);
    if n > 0 {
      OutputsAge(cfg, s, id, init);
    } else {
      NothingAdded(cfg, s, id);
    }
  }

  lemma HowManyCached(cfg: Config, s: Log, id: TaskId, outs: seq<Output>)
    requires id in s.tasks && s.tasks[id].lastNum == 0 && id !in s.caches
    ensures var s' := AddOutputs(cfg, s, id, outs);
      id in s'.tasks && (|EventsOf(s', id)| >= cfg.maxEvents <==> |outs| >= cfg.maxEvents)
  {
    hide AddOutputs;
    CacheIsLogSuffix(cfg, s, id, outs);
    if outs == [] { NothingAdded(cfg, s, id); }
  }

  /** The search never runs off the end of events whose last one is newer. */
  lemma {:induction false} SearchStaysInside(events: seq<Event>, fromSeq: int, lo: nat, hi: nat)
    requires lo < hi <= |events| && events[hi - 1].num > fromSeq
    ensures SearchIndex(events, fromSeq, lo, hi) < hi
    decreases hi - lo
  {
    var mid := (lo + hi) / 2;
    if events[mid].num > fromSeq {
      if lo < mid { SearchStaysInside(events, fromSeq, mid, mid + 1); }
    } else {
      SearchStaysInside(events, fromSeq, mid + 1, hi);
    }
  }

  /** A read is an access exactly when it starts inside the cached events, behind the first and before the last, more
      than five seconds after the last access. A full replay is none. Looking at nothing is a miss, anything else a hit. */
  lemma ReadIsAccess(s: Log, id: TaskId, fromSeq: int, now: int)
    ensures var s' := Recovery.GetFromCache(s, id, fromSeq, now).0;
      var events := EventsOf(s, id);
      && s'.tasks == s.tasks && s'.devices == s.devices
      && s'.stats == (if events == [] then s.stats.(misses := s.stats.misses + 1) else s.stats.(hits := s.stats.hits + 1))
      && (if events != [] && events[0].num <= fromSeq < events[|events| - 1].num
             && now > s.caches[id].lastAccess + 5_000_000_000
          then s'.caches == s.caches[id := s.caches[id].(lastAccess := now)]
          else s'.caches == s.caches)
  {
    hide SearchIndex;
    var events := EventsOf(s, id);
    if events != [] && events[|events| - 1].num > fromSeq {
      SearchStaysInside(events, fromSeq, 0, |events|);
    }
  }

  /** A recovery is not counted and leaves the times of a cache it finds; a cache it makes has the zero time, the first
      instant of the year 1, for both. */
  lemma RecoveredTimes(cfg: Config, s: Log, id: TaskId, events: seq<Event>)
    ensures Populate(cfg, s, id, events) == s.(caches := Populate(cfg, s, id, events).caches)
    ensures var c := Populate(cfg, s, id, events).caches[id];
      if id in s.caches then c.createdAt == s.caches[id].createdAt && c.lastAccess == s.caches[id].lastAccess
      else c.createdAt == -62_135_596_800_000_000_000 && c.lastAccess == -62_135_596_800_000_000_000
  {
  }

  // ---- What a cleanup makes of them ----

  ghost predicate TooOld(cfg: Config, c: Cache, now: int) {
    0 < cfg.maxAge < now - c.createdAt
  }

  /** The estimate is 512 bytes for every cached event. */
  lemma MemoryIsPerEvent(caches: Caches, id: TaskId)
    ensures Memory(map[]) == 0
    ensures id in caches ==> Memory(caches) == 512 * |caches[id].events| + Memory(caches - {id})
  {
    NoMemory();
    if id in caches { MemoryWithout(caches, id); }
  }

  /** A cleanup does nothing with fewer caches than a quarter of the maximum in less than half of the memory. Otherwise
      nothing too old is left; and if what is young enough is within both limits, it all stays. If it is not, at most
      three quarters of both limits are used afterwards. The counters follow; if nothing is young enough, all tasks keep
      their state. */
  lemma CleanupByNumbers(cfg: Config, s: Log, now: int, order: seq<TaskId>)
    requires ValidOrder(cfg, s.caches, now, order)
    ensures var (s', n) := Cleanup(cfg, s, now, order);
      var young := Young(cfg, s.caches, now);
      && (forall id :: id in young <==> id in s.caches && !TooOld(cfg, s.caches[id], now))
      && (if |s.caches| == 0 || (|s.caches| < cfg.maxTasks / 4 && Memory(s.caches) < cfg.maxMemory / 2)
          then s' == s && n == 0
          else
            && (forall id :: id in s'.caches ==> !TooOld(cfg, s.caches[id], now))
            && (|young| <= cfg.maxTasks && Memory(young) <= cfg.maxMemory ==> s'.caches == young)
            && (|young| > cfg.maxTasks || Memory(young) > cfg.maxMemory ==>
                  4 * |s'.caches| <= 3 * cfg.maxTasks && 4 * Memory(s'.caches) <= 3 * cfg.maxMemory)
            && n == |s.caches| - |s'.caches|
            && (|young| == 0 ==> s'.tasks == s.tasks && s'.devices == s.devices)
            && s'.stats == s.stats.(evictions := s.stats.evictions + n, size := |s'.caches|))
  {
    hide Memory;
    hide EvictInOrder;
    hide Young;
    hide LruOrder;
    hide IsPart;
    var young := Young(cfg, s.caches, now);
    YoungIsNotTooOld(cfg, s.caches, now);
    NoMemory();
    assert |s.caches| == 0 <==> s.caches == map[];
    assert |young| == 0 <==> young == map[];
    SurvivorsWithinLimits(cfg, s.caches, now, order);
    KeptAreYoung(cfg, s.caches, now, order);
  }

  lemma YoungIsNotTooOld(cfg: Config, caches: Caches, now: int)
    ensures forall id :: id in Young(cfg, caches, now) <==> id in caches && !TooOld(cfg, caches[id], now)
  {
  }

  lemma KeptAreYoung(cfg: Config, caches: Caches, now: int, order: seq<TaskId>)
    ensures !FastPath(cfg, caches) ==> Survivors(cfg, caches, now, order).Keys <= Young(cfg, caches, now).Keys
  {
    hide Young;
    hide Survivors;
  }

  /** Nothing too old survives a cleanup under pressure. */
  lemma PressureDropsTooOld(cfg: Config, s: Log, now: int, order: seq<TaskId>, id: TaskId)
    requires |s.caches| >= cfg.maxTasks / 4 || Memory(s.caches) >= cfg.maxMemory / 2
    requires id in s.caches && TooOld(cfg, s.caches[id], now)
    ensures id !in Cleanup(cfg, s, now, order).0.caches
  {
    hide Memory;
    hide Young;
    YoungIsNotTooOld(cfg, s.caches, now);
    KeptAreYoung(cfg, s.caches, now, order);
  }

  // ---- The most active task ----

  /** Of two young tasks, the one accessed later is never evicted while the other is kept. */
  lemma LaterAccessStays(cfg: Config, s: Log, now: int, order: seq<TaskId>, early: TaskId, late: TaskId)
    requires ValidOrder(cfg, s.caches, now, order)
    requires early in s.caches && late in s.caches && s.caches[early].lastAccess < s.caches[late].lastAccess
    requires !TooOld(cfg, s.caches[late], now)
    ensures early in Cleanup(cfg, s, now, order).0.caches ==> late in Cleanup(cfg, s, now, order).0.caches
  {
    hide Memory;
    hide Young;
    hide ValidOrder;
    hide EvictInOrder;
    YoungIsNotTooOld(cfg, s.caches, now);
    if LruRuns(cfg, s.caches, now) {
      var last := LruIsFairAndMinimal(cfg, s.caches, now, order);
    }
  }

  /** The task of the latest output of all stays, unless it is too old, as long as anything stays. Once caches must go by
      access time, it goes exactly when it is too much on its own: when the limit on tasks is below two, or 512 bytes for
      each of its events come to more than three quarters of the memory. */
  lemma LatestOutputStays(cfg: Config, s: Log, id: TaskId, o: Output, now: int, order: seq<TaskId>)
    requires id in s.tasks && forall other :: other in s.caches ==> s.caches[other].lastAccess < o.now
    requires ValidOrder(cfg, AddOutput(cfg, s, id, o).caches, now, order)
    requires !TooOld(cfg, AddOutput(cfg, s, id, o).caches[id], now)
    ensures var s' := AddOutput(cfg, s, id, o);
      var kept := Cleanup(cfg, s', now, order).0.caches;
      && (id !in kept ==> kept == map[])
      && (LruRuns(cfg, s'.caches, now) ==>
            (id !in kept <==> cfg.maxTasks < 2 || 4 * 512 * |s'.caches[id].events| > 3 * cfg.maxMemory))
  {
    hide AddOutput;
    hide Cleanup;
    hide ValidOrder;
    hide LruRuns;
    hide Young;
    OutputIsAccess(cfg, s, id, o);
    var s' := AddOutput(cfg, s, id, o);
    LatestStays(cfg, s', now, order, id);
  }

  lemma LatestStays(cfg: Config, s: Log, now: int, order: seq<TaskId>, id: TaskId)
    requires ValidOrder(cfg, s.caches, now, order) && id in s.caches && !TooOld(cfg, s.caches[id], now)
    requires forall other :: other in s.caches && other != id ==> s.caches[other].lastAccess < s.caches[id].lastAccess
    ensures var kept := Cleanup(cfg, s, now, order).0.caches;
      && (id !in kept ==> kept == map[])
      && (LruRuns(cfg, s.caches, now) ==>
            (id !in kept <==> cfg.maxTasks < 2 || 4 * 512 * |s.caches[id].events| > 3 * cfg.maxMemory))
  {
    hide Memory;
    hide Young;
    hide LruRuns;
    hide LruOrder;
    hide EvictInOrder;
    hide OnTarget;
    YoungIsNotTooOld(cfg, s.caches, now);
    var kept := Cleanup(cfg, s, now, order).0.caches;
    forall other | other in kept ensures id in kept {
      assert other in s.caches;
      if other != id { LaterAccessStays(cfg, s, now, order, other, id); }
    }
    if LruRuns(cfg, s.caches, now) {
      var last := LruIsFairAndMinimal(cfg, s.caches, now, order);
      AloneOnTarget(cfg, s.caches[id], id);
      assert kept == Survivors(cfg, s.caches, now, order);
      if id in kept {
        FewerFits(cfg, kept, id);
      } else {
        assert s.caches[last].lastAccess >= s.caches[id].lastAccess;
        assert kept == map[] && last == id;
        assert kept[last := s.caches[last]] == map[id := s.caches[id]];
      }
    }
  }

  lemma AloneOnTarget(cfg: Config, c: Cache, id: TaskId)
    ensures OnTarget(cfg, map[id := c]) <==> cfg.maxTasks >= 2 && 4 * 512 * |c.events| <= 3 * cfg.maxMemory
  {
    hide Memory;
    MemoryIsPerEvent(map[id := c], id);
    assert map[id := c] - {id} == map[];
  }

  /** One of the caches alone is on target if all of them are. */
  lemma FewerFits(cfg: Config, caches: Caches, id: TaskId)
    requires id in caches && OnTarget(cfg, caches)
    ensures OnTarget(cfg, map[id := caches[id]])
  {
    hide Memory;
    MemoryIsPerEvent(caches, id);
    MemoryIsPerEvent(map[id := caches[id]], id);
    assert map[id := caches[id]] - {id} == map[];
    assert |caches| >= 1;
  }

  // ---- Runs ----

  /** Calls that do not access `id`: no output of it and no read. */
  predicate NotAbout(op: Op, id: TaskId) {
    match op
    case Create(_, _, _) => true
    case Add(other, _) => other != id
    case Get(other, _, _, _, _) => other != id
    case Clean(_, _) => false
  }

  /** Calls after which `id` was last accessed no earlier than at t. */
  predicate NotBefore(op: Op, id: TaskId, t: int) {
    match op
    case Add(other, o) => other == id ==> o.now >= t
    case Clean(_, _) => false
    case _ => true
  }

  ghost predicate AccessedAt(s: Log, id: TaskId, t: int) {
    id in s.caches && s.caches[id].lastAccess == t
  }

  ghost predicate AccessedFrom(s: Log, id: TaskId, t: int) {
    id in s.caches && s.caches[id].lastAccess >= t
  }

  /** What one call does to the last access of a task. */
  lemma AccessStep(cfg: Config, s: Log, op: Op, id: TaskId, t: int)
    ensures AccessedAt(s, id, t) && NotAbout(op, id) ==> AccessedAt(Apply(cfg, s, op), id, t)
    ensures AccessedFrom(s, id, t) && NotBefore(op, id, t) ==> AccessedFrom(Apply(cfg, s, op), id, t)
    ensures id in s.tasks && !op.Clean? ==> id in Apply(cfg, s, op).tasks
    ensures op.Add? && op.id in s.tasks ==> AccessedAt(Apply(cfg, s, op), op.id, op.output.now)
  {
    hide ReadEvents;
    hide RecoveredEvents;
    hide Newer;
    hide Cleanup;
    if op.Get? { GetAccess(cfg, s, op, id); }
  }

  lemma GetAccess(cfg: Config, s: Log, op: Op, id: TaskId)
    requires op.Get?
    ensures var s' := Apply(cfg, s, op);
      && (id in s.tasks ==> id in s'.tasks)
      && (id in s.caches ==>
        && id in s'.caches && s'.caches[id].lastAccess >= s.caches[id].lastAccess
        && (id != op.id ==> s'.caches[id] == s.caches[id]))
  {
    hide Recovery.GetFromCache;
    hide ReadEvents;
    hide RecoveredEvents;
    hide Newer;
    ReadIsAccess(s, op.id, op.fromSeq, op.now);
  }

  /** The last access of a task over a run of calls. */
  lemma {:induction false} AccessOverRun(cfg: Config, s: Log, ops: seq<Op>, id: TaskId, t: int)
    ensures AccessedAt(s, id, t) && (forall k :: 0 <= k < |ops| ==> NotAbout(ops[k], id)) ==>
      AccessedAt(Run(Calls(cfg), s, ops), id, t)
    ensures AccessedFrom(s, id, t) && (forall k :: 0 <= k < |ops| ==> NotBefore(ops[k], id, t)) ==>
      AccessedFrom(Run(Calls(cfg), s, ops), id, t)
    ensures id in s.tasks && (forall k :: 0 <= k < |ops| ==> !ops[k].Clean?) ==> id in Run(Calls(cfg), s, ops).tasks
    decreases |ops|
  {
    hide Apply;
    hide AccessedAt;
    hide AccessedFrom;
    hide NotAbout;
    hide NotBefore;
    if ops != [] {
      AccessStep(cfg, s, ops[0], id, t);
      AccessOverRun(cfg, Apply(cfg, s, ops[0]), ops[1..], id, t);
    }
  }

  /** Over every run of creations, outputs and reads: if `late` has an output after the last access to `early`, and
      later in time, then no cleanup evicts `late`, unless it is too old, and keeps `early`. */
  lemma LaterOutputStays(cfg: Config, s: Log, ops: seq<Op>, i: nat, j: nat, now: int, order: seq<TaskId>)
    requires i < j < |ops| && ops[i].Add? && ops[j].Add? && ops[i].output.now < ops[j].output.now
    requires ops[i].id in s.tasks && ops[j].id in s.tasks && forall k :: 0 <= k < |ops| ==> !ops[k].Clean?
    requires forall k :: i < k < |ops| ==> NotAbout(ops[k], ops[i].id)
    requires forall k :: j < k < |ops| ==> NotBefore(ops[k], ops[j].id, ops[j].output.now)
    requires ValidOrder(cfg, Run(Calls(cfg), s, ops).caches, now, order)
    ensures var early, late, s' := ops[i].id, ops[j].id, Run(Calls(cfg), s, ops);
      && early in s'.caches && late in s'.caches
      && (!TooOld(cfg, s'.caches[late], now) && early in Cleanup(cfg, s', now, order).0.caches ==>
            late in Cleanup(cfg, s', now, order).0.caches)
  {
    hide Apply;
    hide Run;
    hide Cleanup;
    hide NotAbout;
    hide NotBefore;
    hide ValidOrder;
    hide TooOld;
    var early, late, s' := ops[i].id, ops[j].id, Run(Calls(cfg), s, ops);
    AccessAfter(cfg, s, ops, i, ops[i].output.now);
    AccessAfter(cfg, s, ops, j, ops[j].output.now);
    if !TooOld(cfg, s'.caches[late], now) {
      LaterAccessStays(cfg, s', now, order, early, late);
    }
  }

  lemma AccessAfter(cfg: Config, s: Log, ops: seq<Op>, i: nat, t: int)
    requires i < |ops| && ops[i].Add? && ops[i].id in s.tasks && ops[i].output.now == t
    requires forall k :: 0 <= k < |ops| ==> !ops[k].Clean?
    ensures var s' := Run(Calls(cfg), s, ops);
      && ((forall k :: i < k < |ops| ==> NotAbout(ops[k], ops[i].id)) ==> AccessedAt(s', ops[i].id, t))
      && ((forall k :: i < k < |ops| ==> NotBefore(ops[k], ops[i].id, t)) ==> AccessedFrom(s', ops[i].id, t))
  {
    hide Apply;
    hide Run;
    hide NotAbout;
    hide NotBefore;
    var id, before, rest := ops[i].id, ops[..i], ops[i + 1..];
    var s1 := Run(Calls(cfg), s, before);
    AccessOverRun(cfg, s, before, id, t);
    AccessStep(cfg, s1, ops[i], id, t);
    RunPrefix(Calls(cfg), s, ops, i);
    var s2 := Apply(cfg, s1, ops[i]);
    AccessOverRun(cfg, s2, rest, id, t);
    assert ops == ops[..i + 1] + rest;
    RunAppend(Calls(cfg), s, ops[..i + 1], rest);
  }
}
