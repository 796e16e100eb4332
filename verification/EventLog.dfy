/** The output log cache on values: sequence numbers, the sliding window, incremental reads and recovery.
    The functions say what one call of the state manager does; the lemmas say what that means for the log. */
module EventLog {
  import opened Json

  datatype TaskId = TaskId(name: string)

  datatype Event = Event(num: int, kind: string, timestamp: int, data: Json)

  datatype TaskState = TaskState(provider: string, status: string, createdAt: int, updatedAt: int, lastNum: int)

  datatype Cache = Cache(events: seq<Event>, createdAt: int, lastAccess: int)

  datatype Config = Config(maxEvents: nat, minEvents: nat, maxMemory: nat, maxTasks: nat, maxAge: int)

  datatype Stats = Stats(hits: int, misses: int, evictions: int, size: int, updates: int)

  datatype Log = Log(
    tasks: map<TaskId, TaskState>,
    caches: map<TaskId, Cache>,
    devices: map<TaskId, seq<string>>,
    stats: Stats)

  /** The zero time of the language the manager is written in, in nanoseconds. */
  const ZERO_TIME: int := -62135596800_000_000_000
  const ACCESS_GRANULARITY: int := 5_000_000_000

  // ---- Writing ----

  function CreateTask(s: Log, id: TaskId, provider: string, ms: int): Log {
    s.(tasks := s.tasks[id := TaskState(provider, "running", ms, ms, 0)])
  }

  function NextSeq(s: Log, id: TaskId, ms: int): (r: (Log, Option<int>)) {
    if id !in s.tasks then (s, None)
    else
      var t := s.tasks[id];
      (s.(tasks := s.tasks[id := t.(lastNum := t.lastNum + 1, updatedAt := ms)]), Some(t.lastNum + 1))
  }

  function LastN<T>(xs: seq<T>, n: nat): (r: seq<T>)
    ensures |r| <= n && |r| <= |xs|
  {
    if |xs| <= n then xs else xs[|xs| - n..]
  }

  /** The window is cut to the configured size before the event is appended, so it settles one above that size. */
  function Window(maxEvents: nat, events: seq<Event>, e: Event): seq<Event> {
    LastN(events, maxEvents) + [e]
  }

  function UpdateCache(cfg: Config, s: Log, id: TaskId, e: Event, now: int): Log {
    var c := if id in s.caches then s.caches[id] else Cache([], now, now);
    s.(caches := s.caches[id := Cache(Window(cfg.maxEvents, c.events, e), c.createdAt, now)],
       stats := s.stats.(
         size := s.stats.size + (if id in s.caches then 0 else 1),
         evictions := s.stats.evictions + (if |c.events| >= cfg.maxEvents then 1 else 0),
         updates := s.stats.updates + 1))
  }

  datatype Output = Output(kind: string, data: Json, ms: int, now: int)

  function AddOutput(cfg: Config, s: Log, id: TaskId, o: Output): Log {
    var (s', n) := NextSeq(s, id, o.ms);
    if n.None? then s' else UpdateCache(cfg, s', id, Event(n.value, o.kind, o.ms, o.data), o.now)
  }

  function AddOutputs(cfg: Config, s: Log, id: TaskId, outs: seq<Output>): Log {
    if outs == [] then s
    else AddOutput(cfg, AddOutputs(cfg, s, id, outs[..|outs| - 1]), id, outs[|outs| - 1])
  }

  /** The log nobody trims: the i-th output carries the number i + 1. */
  function FullLog(outs: seq<Output>): (log: seq<Event>)
    ensures |log| == |outs|
  {
    seq(|outs|, i requires 0 <= i < |outs| => Event(i + 1, outs[i].kind, outs[i].ms, outs[i].data))
  }

  /** One output of a known task: the next number, and one event more in its window. */
  lemma AddOutputKnown(cfg: Config, s: Log, id: TaskId, o: Output)
    requires id in s.tasks
    ensures var s' := AddOutput(cfg, s, id, o);
      var n := s.tasks[id].lastNum + 1;
      var before := if id in s.caches then s.caches[id].events else [];
      && s'.tasks == s.tasks[id := s.tasks[id].(lastNum := n, updatedAt := o.ms)]
      && s'.caches.Keys == s.caches.Keys + {id}
      && s'.caches[id].events == Window(cfg.maxEvents, before, Event(n, o.kind, o.ms, o.data))
      && (forall other :: other in s.caches && other != id ==> s'.caches[other] == s.caches[other])
  {
  }

  /** After any run of outputs of a new task the cache is exactly the last maxEvents + 1 events of the full log. */
  lemma {:induction false} CacheIsLogSuffix(cfg: Config, s: Log, id: TaskId, outs: seq<Output>)
    requires id in s.tasks && s.tasks[id].lastNum == 0 && (id in s.caches ==> s.caches[id].events == [])
    ensures var s' := AddOutputs(cfg, s, id, outs);
      && id in s'.tasks && s'.tasks[id].lastNum == |outs|
      && (outs != [] ==> id in s'.caches)
      && (id in s'.caches ==> s'.caches[id].events == LastN(FullLog(outs), cfg.maxEvents + 1))
  {
    hide AddOutput;
    hide FullLog;
    hide Window;
    if outs != [] {
      var init := outs[..|outs| - 1];
      CacheIsLogSuffix(cfg, s, id, init);
      var o := outs[|outs| - 1];
      AddOutputKnown(cfg, AddOutputs(cfg, s, id, init), id, o);
      FullLogGrows(outs);
      SlideThenAppend(FullLog(init), cfg.maxEvents, Event(|outs|, o.kind, o.ms, o.data));
    }
  }

  lemma FullLogGrows(outs: seq<Output>)
    requires outs != []
    ensures var o := outs[|outs| - 1];
      FullLog(outs) == FullLog(outs[..|outs| - 1]) + [Event(|outs|, o.kind, o.ms, o.data)]
  {
  }

  lemma SlideThenAppend(log: seq<Event>, m: nat, e: Event)
    ensures Window(m, LastN(log, m + 1), e) == LastN(log + [e], m + 1)
  {
  }

  // ---- Reading ----

  /** The library's binary search for the first index in [lo, hi) whose event is newer than `fromSeq`. */
  function SearchIndex(events: seq<Event>, fromSeq: int, lo: nat, hi: nat): (i: nat)
    requires lo <= hi <= |events|
    ensures lo <= i <= hi
    decreases hi - lo
  {
    if lo == hi then lo
    else
      var mid := (lo + hi) / 2;
      if events[mid].num > fromSeq then SearchIndex(events, fromSeq, lo, mid)
      else SearchIndex(events, fromSeq, mid + 1, hi)
  }

  /** What reading the cached events returns; `None` is the nil slice. */
  function ReadEvents(events: seq<Event>, fromSeq: int): Option<seq<Event>> {
    if events == [] || events[|events| - 1].num <= fromSeq then None
    else if fromSeq < events[0].num then Some(events)
    else
      var i := SearchIndex(events, fromSeq, 0, |events|);
      if i >= |events| then None else Some(events[i..])
  }

  function Newer(events: seq<Event>, fromSeq: int): seq<Event> {
    if events == [] then []
    else (if events[0].num > fromSeq then [events[0]] else []) + Newer(events[1..], fromSeq)
  }

  function OrEmpty(r: Option<seq<Event>>): seq<Event> {
    if r.Some? then r.value else []
  }

  ghost predicate NumberOrder(events: seq<Event>) {
    forall i, j :: 0 <= i < j < |events| ==> events[i].num <= events[j].num
  }

  lemma {:induction false} SearchFinds(events: seq<Event>, fromSeq: int, lo: nat, hi: nat)
    requires lo <= hi <= |events| && NumberOrder(events)
    requires forall k :: 0 <= k < lo ==> events[k].num <= fromSeq
    requires forall k :: hi <= k < |events| ==> events[k].num > fromSeq
    ensures var i := SearchIndex(events, fromSeq, lo, hi);
      && (forall k :: 0 <= k < i ==> events[k].num <= fromSeq)
      && (forall k :: i <= k < |events| ==> events[k].num > fromSeq)
    decreases hi - lo
  {
    if lo < hi {
      var mid := (lo + hi) / 2;
      if events[mid].num > fromSeq {
        SearchFinds(events, fromSeq, lo, mid);
      } else {
        SearchFinds(events, fromSeq, mid + 1, hi);
      }
    }
  }

  lemma {:induction false} NewerIsSuffix(events: seq<Event>, fromSeq: int, i: nat)
    requires i <= |events|
    requires forall k :: 0 <= k < i ==> events[k].num <= fromSeq
    requires forall k :: i <= k < |events| ==> events[k].num > fromSeq
    ensures Newer(events, fromSeq) == events[i..]
  {
    if events != [] {
      if i > 0 {
        NewerIsSuffix(events[1..], fromSeq, i - 1);
        assert events[1..][i - 1..] == events[i..];
      } else {
        NewerIsSuffix(events[1..], fromSeq, 0);
        assert events == [events[0]] + events[1..];
      }
    }
  }

  /** In number order, the fast paths and the binary search together are the plain filter, wherever the reader is. */
  lemma OrderedReadIsFilter(events: seq<Event>, fromSeq: int)
    requires NumberOrder(events)
    ensures OrEmpty(ReadEvents(events, fromSeq)) == Newer(events, fromSeq)
    ensures ReadEvents(events, fromSeq).Some? ==> ReadEvents(events, fromSeq).value != []
  {
    SearchFinds(events, fromSeq, 0, |events|);
    if events == [] || events[|events| - 1].num <= fromSeq {
      NewerIsSuffix(events, fromSeq, |events|);
    } else if fromSeq < events[0].num {
      NewerIsSuffix(events, fromSeq, 0);
    } else {
      NewerIsSuffix(events, fromSeq, SearchIndex(events, fromSeq, 0, |events|));
    }
  }

  /** Number order is exactly what reading needs: reads agree with the filter at every position if and only if
      the cache is in number order. */
  lemma ReadsAreExactIffOrdered(events: seq<Event>)
    ensures (forall from :: OrEmpty(ReadEvents(events, from)) == Newer(events, from)) <==> NumberOrder(events)
  {
    hide ReadEvents;
    hide Newer;
    if NumberOrder(events) {
      forall from ensures OrEmpty(ReadEvents(events, from)) == Newer(events, from) {
        OrderedReadIsFilter(events, from);
      }
    } else {
      var i := FirstDescent(events);
      DescentMisreads(events, i);
    }
  }

  /** A reader standing at the number after a descent does not get what it missed. */
  lemma DescentMisreads(events: seq<Event>, i: nat)
    requires i + 1 < |events| && events[i].num > events[i + 1].num
    ensures OrEmpty(ReadEvents(events, events[i + 1].num)) != Newer(events, events[i + 1].num)
  {
    hide ReadEvents;
    hide Newer;
    var from := events[i + 1].num;
    ReadIsSuffix(events, from);
    NewerHoldsNewer(events, from);
    var r := OrEmpty(ReadEvents(events, from));
    if r == Newer(events, from) {
      var k := |events| - |r|;
      forall j | k <= j < |events| ensures events[j].num > from {
        assert events[j] == r[j - k];
      }
      NewerCount(events, from, i, k);
    }
  }

  lemma {:induction false} FirstDescent(events: seq<Event>) returns (i: nat)
    requires !NumberOrder(events)
    ensures i + 1 < |events| && events[i].num > events[i + 1].num
  {
    if forall k :: 0 <= k < |events| - 1 ==> events[k].num <= events[k + 1].num {
      forall a, b | 0 <= a < b < |events| ensures events[a].num <= events[b].num {
        Climb(events, a, b);
      }
    }
    i :| 0 <= i < |events| - 1 && events[i].num > events[i + 1].num;
  }

  lemma {:induction false} Climb(events: seq<Event>, a: nat, b: nat)
    requires a <= b < |events| && forall k :: 0 <= k < |events| - 1 ==> events[k].num <= events[k + 1].num
    ensures events[a].num <= events[b].num
  {
    if a < b { Climb(events, a, b - 1); }
  }

  lemma ReadIsSuffix(events: seq<Event>, fromSeq: int)
    ensures var r := OrEmpty(ReadEvents(events, fromSeq)); |r| <= |events| && r == events[|events| - |r|..]
  {
  }

  lemma {:induction false} NewerHoldsNewer(events: seq<Event>, fromSeq: int)
    ensures forall e :: e in Newer(events, fromSeq) ==> e.num > fromSeq
  {
    if events != [] { NewerHoldsNewer(events[1..], fromSeq); }
  }

  /** The filter keeps every event of a suffix of newer ones and, besides, the newer event before it. */
  lemma {:induction false} NewerCount(events: seq<Event>, fromSeq: int, i: nat, k: nat)
    requires k <= |events| && (forall j :: k <= j < |events| ==> events[j].num > fromSeq)
    requires i < k ==> events[i].num > fromSeq
    ensures |Newer(events, fromSeq)| >= |events| - k + (if i < k then 1 else 0)
  {
    if events != [] {
      if k == 0 {
        NewerCount(events[1..], fromSeq, i, 0);
      } else if i == 0 {
        NewerCount(events[1..], fromSeq, k - 1, k - 1);
      } else {
        NewerCount(events[1..], fromSeq, i - 1, k - 1);
      }
    }
  }

  ghost predicate NumberedFrom(events: seq<Event>, first: int) {
    forall i :: 0 <= i < |events| ==> events[i].num == first + i
  }

  /** Reading a tail of a log that is numbered from one gives the events after position p that the tail still has. */
  lemma ReadOfTail(log: seq<Event>, start: nat, p: nat)
    requires NumberedFrom(log, 1) && start <= |log| && p <= |log|
    ensures OrEmpty(ReadEvents(log[start..], p)) == if p <= start then log[start..] else log[p..]
  {
    hide ReadEvents;
    hide Newer;
    var events := log[start..];
    assert NumberedFrom(events, start + 1);
    assert NumberOrder(events);
    OrderedReadIsFilter(events, p);
    if p <= start {
      NewerIsSuffix(events, p, 0);
    } else {
      NewerIsSuffix(events, p, p - start);
      assert events[p - start..] == log[p..];
    }
  }

  /** Reading the last n events gives all the events after position p exactly when p is at most n events from the end. */
  lemma ReadOfSuffix(log: seq<Event>, n: nat, p: nat)
    requires NumberedFrom(log, 1) && p <= |log|
    ensures OrEmpty(ReadEvents(LastN(log, n), p)) == log[p..] <==> |log| - p <= n
  {
    hide ReadEvents;
    var start := if |log| <= n then 0 else |log| - n;
    assert log[0..] == log;
    assert LastN(log, n) == log[start..];
    ReadOfTail(log, start, p);
    assert |log[start..]| == |log| - start && |log[p..]| == |log| - p;
  }

  /** Looking in the cache of a new task from position p finds exactly the events after it, once each and in order, if
      and only if p is at most maxEvents + 1 events behind. */
  lemma CacheReadIsExact(cfg: Config, s: Log, id: TaskId, outs: seq<Output>, p: nat)
    requires id in s.tasks && s.tasks[id].lastNum == 0 && id !in s.caches
    requires outs != [] && p <= |outs|
    ensures var s' := AddOutputs(cfg, s, id, outs);
      && id in s'.caches
      && (OrEmpty(ReadEvents(s'.caches[id].events, p)) == FullLog(outs)[p..] <==> |outs| - p <= cfg.maxEvents + 1)
  {
    hide ReadEvents;
    hide AddOutputs;
    CacheIsLogSuffix(cfg, s, id, outs);
    ReadOfSuffix(FullLog(outs), cfg.maxEvents + 1, p);
  }
}
