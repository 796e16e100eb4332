/** Cache eviction: age first, then least recently accessed, down to three quarters of the limits. */
module Eviction {
  import opened EventLog

  const AVG_EVENT_SIZE: nat := 512

  type Caches = map<TaskId, Cache>

  function Bytes(c: Cache): nat {
    |c.events| * AVG_EVENT_SIZE
  }

  /** The estimated memory of all caches. */
  ghost function Memory(caches: Caches): nat
    decreases |caches|
  {
    if caches == map[] then 0
    else
      var id :| id in caches;
      assert |caches - {id}| < |caches| by { Shrinks(caches, id); }
      Bytes(caches[id]) + Memory(caches - {id})
  }

  lemma Shrinks(caches: Caches, id: TaskId)
    requires id in caches
    ensures |caches - {id}| == |caches| - 1
  {
    assert (caches - {id}).Keys == caches.Keys - {id};
  }

  /** The sum does not depend on the order the map is iterated in. */
  lemma {:induction false} MemoryWithout(caches: Caches, id: TaskId)
    requires id in caches
    ensures Memory(caches) == Bytes(caches[id]) + Memory(caches - {id})
    decreases |caches|
  {
    var first :| id in caches && first in caches && Memory(caches) == Bytes(caches[first]) + Memory(caches - {first});
    if first != id {
      Shrinks(caches, first);
      Shrinks(caches, id);
      MemoryWithout(caches - {first}, id);
      MemoryWithout(caches - {id}, first);
      assert caches - {first} - {id} == caches - {id} - {first};
    }
  }

  ghost predicate WithinLimits(cfg: Config, caches: Caches) {
    |caches| <= cfg.maxTasks && Memory(caches) <= cfg.maxMemory
  }

  ghost predicate OnTarget(cfg: Config, caches: Caches) {
    |caches| <= cfg.maxTasks * 3 / 4 && Memory(caches) <= cfg.maxMemory * 3 / 4
  }

  ghost predicate IsPart(part: Caches, whole: Caches) {
    part.Keys <= whole.Keys && forall id :: id in part ==> part[id] == whole[id]
  }

  /** Phase one keeps what is young enough; a limit of zero switches it off. */
  function Young(cfg: Config, caches: Caches, now: int): (young: Caches)
    ensures IsPart(young, caches)
  {
    map id | id in caches && (cfg.maxAge <= 0 || now - caches[id].createdAt <= cfg.maxAge) :: caches[id]
  }

  /** The order holds every task that has a cache, once. */
  ghost predicate Lists(caches: Caches, order: seq<TaskId>) {
    && (forall id :: id in caches <==> id in order)
    && forall i, j :: 0 <= i < j < |order| ==> order[i] != order[j]
  }

  /** The caches listed once each, least recently accessed first; ties may stand in any order. */
  ghost predicate LruOrder(caches: Caches, order: seq<TaskId>) {
    && Lists(caches, order)
    && forall i, j :: 0 <= i < j < |order| ==> caches[order[i]].lastAccess <= caches[order[j]].lastAccess
  }

  /** Phase two drops caches in that order until both targets are met. */
  ghost function EvictInOrder(cfg: Config, caches: Caches, order: seq<TaskId>): (kept: Caches)
    ensures IsPart(kept, caches)
  {
    if order == [] || OnTarget(cfg, caches) then caches else EvictInOrder(cfg, caches - {order[0]}, order[1..])
  }

  ghost predicate FastPath(cfg: Config, caches: Caches) {
    caches == map[] || (|caches| < cfg.maxTasks / 4 && Memory(caches) < cfg.maxMemory / 2)
  }

  /** Whether a cleanup gets as far as evicting by access time. */
  ghost predicate LruRuns(cfg: Config, caches: Caches, now: int) {
    var young := Young(cfg, caches, now);
    !FastPath(cfg, caches) && young != map[] && !WithinLimits(cfg, young)
  }

  /** The order matters only when phase two runs; then it must be by last access. */
  ghost predicate ValidOrder(cfg: Config, caches: Caches, now: int, order: seq<TaskId>) {
    LruRuns(cfg, caches, now) ==> LruOrder(Young(cfg, caches, now), order)
  }

  ghost function Survivors(cfg: Config, caches: Caches, now: int, order: seq<TaskId>): (kept: Caches)
    ensures IsPart(kept, caches)
    ensures !FastPath(cfg, caches) ==> IsPart(kept, Young(cfg, caches, now))
  {
    var young := Young(cfg, caches, now);
    if FastPath(cfg, caches) then caches
    else if LruRuns(cfg, caches, now) then EvictInOrder(cfg, young, order)
    else young
  }

  /** The state once the caches are down to `kept`: the counters follow, and task state and devices of every task
      without a cache go too, except when age alone emptied the map. */
  function Settled(s: Log, kept: Caches, emptied: bool): Log {
    var stats := s.stats.(evictions := s.stats.evictions + |s.caches| - |kept|, size := |kept|);
    var stale := s.tasks.Keys - kept.Keys;
    if emptied then Log(s.tasks, kept, s.devices, stats) else Log(s.tasks - stale, kept, s.devices - stale, stats)
  }

  /** One cleanup: the new state and the number it returns. */
  ghost function Cleanup(cfg: Config, s: Log, now: int, order: seq<TaskId>): (Log, int) {
    var kept := Survivors(cfg, s.caches, now, order);
    if FastPath(cfg, s.caches) then (s, 0)
    else (Settled(s, kept, Young(cfg, s.caches, now) == map[]), |s.caches| - |kept|)
  }

  // ---- What phase two guarantees ----

  ghost function Prefix(order: seq<TaskId>, k: nat): set<TaskId>
    requires k <= |order|
  {
    set i | 0 <= i < k :: order[i]
  }

  ghost function Without(caches: Caches, order: seq<TaskId>, k: nat): Caches
    requires k <= |order|
  {
    caches - Prefix(order, k)
  }

  /** Eviction removes a prefix of the order, and the shortest one that meets both targets. */
  lemma {:induction false} EvictsShortestPrefix(cfg: Config, caches: Caches, order: seq<TaskId>) returns (k: nat)
    requires Lists(caches, order)
    ensures k <= |order|
    ensures EvictInOrder(cfg, caches, order) == Without(caches, order, k)
    ensures OnTarget(cfg, EvictInOrder(cfg, caches, order))
    ensures forall j :: 0 <= j < k ==> !OnTarget(cfg, Without(caches, order, j))
  {
    hide Lists;
    hide OnTarget;
    hide Without;
    hide EvictInOrder;
    hide IsPart;
    WithoutSteps(caches, order);
    EvictStep(cfg, caches, order);
    if order == [] || OnTarget(cfg, caches) {
      k := 0;
      if order == [] { EmptyIsOnTarget(cfg, caches); }
    } else {
      RestOfOrder(caches, order);
      k := EvictsShortestPrefix(cfg, caches - {order[0]}, order[1..]);
      k := k + 1;
    }
  }

  lemma EvictStep(cfg: Config, caches: Caches, order: seq<TaskId>)
    ensures order == [] || OnTarget(cfg, caches) ==> EvictInOrder(cfg, caches, order) == caches
    ensures order != [] && !OnTarget(cfg, caches) ==>
      EvictInOrder(cfg, caches, order) == EvictInOrder(cfg, caches - {order[0]}, order[1..])
  {
  }

  lemma RestOfOrder(caches: Caches, order: seq<TaskId>)
    requires order != [] && Lists(caches, order)
    ensures Lists(caches - {order[0]}, order[1..])
  {
    assert forall id :: id in order <==> id == order[0] || id in order[1..];
  }

  lemma WithoutSteps(caches: Caches, order: seq<TaskId>)
    ensures Without(caches, order, 0) == caches
    ensures forall j :: 0 < j <= |order| ==>
      Without(caches, order, j) == Without(caches - {order[0]}, order[1..], j - 1)
  {
    forall j | 0 < j <= |order| ensures Without(caches, order, j) == Without(caches - {order[0]}, order[1..], j - 1) {
      PrefixStep(order, j - 1);
    }
  }

  lemma PrefixStep(order: seq<TaskId>, j: nat)
    requires j < |order|
    ensures Prefix(order, j + 1) == {order[0]} + Prefix(order[1..], j)
  {
    forall id | id in Prefix(order, j + 1) ensures id in {order[0]} + Prefix(order[1..], j) {
      var i :| 0 <= i < j + 1 && order[i] == id;
      if i > 0 { assert order[1..][i - 1] == id; }
    }
    assert order[0] in Prefix(order, j + 1);
    forall id | id in Prefix(order[1..], j) ensures id in Prefix(order, j + 1) {
      var i :| 0 <= i < j && order[1..][i] == id;
      assert order[i + 1] == id;
    }
  }

  lemma EmptyIsOnTarget(cfg: Config, caches: Caches)
    requires Lists(caches, [])
    ensures OnTarget(cfg, caches)
  {
    assert caches == map[];
  }

  lemma SurvivorsWithinLimits(cfg: Config, caches: Caches, now: int, order: seq<TaskId>)
    requires ValidOrder(cfg, caches, now, order)
    ensures WithinLimits(cfg, Survivors(cfg, caches, now, order))
    ensures LruRuns(cfg, caches, now) ==> OnTarget(cfg, Survivors(cfg, caches, now, order))
  {
    hide Young;
    hide Memory;
    if LruRuns(cfg, caches, now) {
      var k := EvictsShortestPrefix(cfg, Young(cfg, caches, now), order);
    } else if FastPath(cfg, caches) || Young(cfg, caches, now) == map[] {
      NoMemory();
    }
  }

  lemma NoMemory()
    ensures Memory(map[]) == 0
  {
  }

  /** Every cleanup leaves the number of tasks and the estimated memory within their limits, only ever removes
      entries, and returns how many it removed. */
  lemma CleanupMeetsLimits(cfg: Config, s: Log, now: int, order: seq<TaskId>)
    requires ValidOrder(cfg, s.caches, now, order)
    ensures var (s', n) := Cleanup(cfg, s, now, order);
      && WithinLimits(cfg, s'.caches)
      && IsPart(s'.caches, s.caches)
      && n == |s.caches.Keys - s'.caches.Keys|
  {
    SurvivorsWithinLimits(cfg, s.caches, now, order);
    var kept := Survivors(cfg, s.caches, now, order);
    PartSize(kept, s.caches);
    KeptWhenFast(cfg, s.caches, now, order);
  }

  lemma KeptWhenFast(cfg: Config, caches: Caches, now: int, order: seq<TaskId>)
    ensures FastPath(cfg, caches) ==> Survivors(cfg, caches, now, order) == caches
  {
  }

  lemma PartSize(part: Caches, whole: Caches)
    requires IsPart(part, whole)
    ensures |whole.Keys - part.Keys| == |whole| - |part|
  {
    assert whole.Keys == part.Keys + (whole.Keys - part.Keys);
  }

  /** Cutting a prefix off the access order takes the longest unused first. */
  lemma PrefixIsOldest(young: Caches, order: seq<TaskId>, k: nat) returns (last: TaskId)
    requires LruOrder(young, order) && 0 < k <= |order|
    ensures var kept := Without(young, order, k);
      && last in young && last !in kept && kept[last := young[last]] == Without(young, order, k - 1)
      && forall gone :: gone in young && gone !in kept ==>
           && young[gone].lastAccess <= young[last].lastAccess
           && forall id :: id in kept ==> young[gone].lastAccess <= young[id].lastAccess
  {
    last := order[k - 1];
    assert last in order;
    PrefixLast(order, k - 1);
    var kept := Without(young, order, k);
    forall gone | gone in young && gone !in kept
      ensures young[gone].lastAccess <= young[last].lastAccess
      ensures forall id :: id in kept ==> young[gone].lastAccess <= young[id].lastAccess
    {
      OldestFirst(young, order, k, gone, last);
      forall id | id in kept ensures young[gone].lastAccess <= young[id].lastAccess {
        OldestFirst(young, order, k, gone, id);
      }
    }
  }

  /** Eviction in access order stops as soon as it may. */
  lemma EvictionIsFairAndMinimal(cfg: Config, young: Caches, order: seq<TaskId>) returns (last: TaskId)
    requires LruOrder(young, order) && !OnTarget(cfg, young)
    ensures var kept := EvictInOrder(cfg, young, order);
      && OnTarget(cfg, kept)
      && last in young && last !in kept && !OnTarget(cfg, kept[last := young[last]])
      && forall gone :: gone in young && gone !in kept ==>
           && young[gone].lastAccess <= young[last].lastAccess
           && forall id :: id in kept ==> young[gone].lastAccess <= young[id].lastAccess
  {
    hide OnTarget;
    hide EvictInOrder;
    hide Without;
    var k := EvictsShortestPrefix(cfg, young, order);
    WithoutSteps(young, order);
    last := PrefixIsOldest(young, order, k);
  }

  lemma OldestFirst(young: Caches, order: seq<TaskId>, k: nat, gone: TaskId, id: TaskId)
    requires LruOrder(young, order) && 0 < k <= |order|
    requires gone in Prefix(order, k) && id in young && id !in Prefix(order, k - 1)
    ensures gone in young && young[gone].lastAccess <= young[id].lastAccess
  {
    var i :| 0 <= i < k && order[i] == gone;
    var j :| 0 <= j < |order| && order[j] == id;
    assert gone in order;
  }

  /** When phase two runs, both targets are met, everything it evicts was accessed no later than everything kept,
      and putting back the last entry it evicts would miss a target. */
  lemma LruIsFairAndMinimal(cfg: Config, caches: Caches, now: int, order: seq<TaskId>) returns (last: TaskId)
    requires LruRuns(cfg, caches, now) && ValidOrder(cfg, caches, now, order)
    ensures var kept := Survivors(cfg, caches, now, order);
      && OnTarget(cfg, kept)
      && last in caches && last !in kept && !OnTarget(cfg, kept[last := caches[last]])
      && forall gone :: gone in Young(cfg, caches, now) && gone !in kept ==>
           && caches[gone].lastAccess <= caches[last].lastAccess
           && forall id :: id in kept ==> caches[gone].lastAccess <= caches[id].lastAccess
  {
    var young := Young(cfg, caches, now);
    NotYetOnTarget(cfg, caches, now);
    last := EvictionIsFairAndMinimal(cfg, young, order);
    assert Survivors(cfg, caches, now, order) == EvictInOrder(cfg, young, order);
  }

  lemma NotYetOnTarget(cfg: Config, caches: Caches, now: int)
    requires LruRuns(cfg, caches, now)
    ensures !OnTarget(cfg, Young(cfg, caches, now))
  {
    hide Young;
    hide Memory;
  }

  lemma PrefixLast(order: seq<TaskId>, k: nat)
    requires k < |order| && forall i, j :: 0 <= i < j < |order| ==> order[i] != order[j]
    ensures Prefix(order, k + 1) == Prefix(order, k) + {order[k]} && order[k] !in Prefix(order, k)
  {
  }
}
