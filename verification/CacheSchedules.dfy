/** Every schedule of the output log cache. A call is the sequence of its lock-protected sections: an output takes a
    number and later appends; a read looks in the cache, and if it has to recover it later fills the cache and later
    still stores the sequence number; a cleanup evicts and then, still holding the cache lock, drops task state. */
module CacheSchedules {
  import opened Json
  import opened EventLog
  import opened Eviction
  import opened Recovery
  import ConcurrentLog
  import opened Runs

  /** A read that found nothing, one that has filled the cache with so many events, or one that is over. */
  datatype Read = Missed(id: TaskId, fromSeq: int) | Filled(id: TaskId, num: nat) | Finished

  /** The log, whether a cleanup holds the cache lock, the outputs with a number that have not appended, the reads. */
  datatype State = State(log: Log, cleaning: bool, calls: seq<ConcurrentLog.Pending>, readers: seq<Read>)

  datatype Step =
    | Create(id: TaskId, provider: string, ms: int)
    | Number(id: TaskId, output: Output)
    | Publish(call: nat, now: int)
    | Look(id: TaskId, fromSeq: int, now: int)
    | Fill(read: nat, session: Option<seq<Message>>, capacity: nat)  // the array of the cached events has this capacity
    | Store(read: nat, ms: int)
    | Evict(now: int, order: seq<TaskId>)
    | Drop

  const INIT: State := State(EMPTY_LOG, false, [], [])

  /** The sections of a cleanup: whether the first one goes on to the second, and the second. */
  ghost function EvictCaches(cfg: Config, log: Log, now: int, order: seq<TaskId>): (Log, bool) {
    var kept := Survivors(cfg, log.caches, now, order);
    if FastPath(cfg, log.caches) then (log, false)
    else
      (log.(caches := kept, stats := log.stats.(
         evictions := log.stats.evictions + |log.caches| - |kept|, size := |kept|)),
       Young(cfg, log.caches, now) != map[])
  }

  function DropStale(log: Log): Log {
    var stale := log.tasks.Keys - log.caches.Keys;
    log.(tasks := log.tasks - stale, devices := log.devices - stale)
  }

  /** Whether a read that is about to fill the cache does: there are messages, and making room does not panic. */
  ghost predicate Fills(cfg: Config, s: State, id: TaskId, session: Option<seq<Message>>, capacity: nat) {
    session.Some? && session.value != [] && !PopulatePanics(cfg, EventsOf(s.log, id), |session.value|, capacity)
  }

  /** One section. Those that need the cache lock wait, and so do nothing, while a cleanup holds it. */
  ghost function Next(cfg: Config, s: State, step: Step): State {
    match step
    case Create(id, provider, ms) => s.(log := CreateTask(s.log, id, provider, ms))
    case Number(id, o) =>
      var (log, n) := NextSeq(s.log, id, o.ms);
      if n.None? then s
      else
        var event := Event(n.value, o.kind, o.ms, o.data);
        s.(log := log, calls := s.calls + [ConcurrentLog.Pending(id, event)])
    case Publish(k, now) =>
      if k >= |s.calls| || s.cleaning then s
      else
        s.(log := UpdateCache(cfg, s.log, s.calls[k].id, s.calls[k].event, now),
           calls := s.calls[..k] + s.calls[k + 1..])
    case Look(id, fromSeq, now) =>
      if s.cleaning then s
      else
        var (log, found) := GetFromCache(s.log, id, fromSeq, now);
        s.(log := log, readers := s.readers + [if found.None? then Missed(id, fromSeq) else Finished])
    case Fill(k, session, capacity) =>
      if k >= |s.readers| || !s.readers[k].Missed? || s.cleaning then s
      else if !Fills(cfg, s, s.readers[k].id, session, capacity) then s.(readers := s.readers[k := Finished])
      else
        s.(log := Populate(cfg, s.log, s.readers[k].id, RecoveredEvents(session.value)),
           readers := s.readers[k := Filled(s.readers[k].id, |session.value|)])
    case Store(k, ms) =>
      if k >= |s.readers| || !s.readers[k].Filled? then s
      else s.(log := SetSeq(s.log, s.readers[k].id, s.readers[k].num, ms), readers := s.readers[k := Finished])
    case Evict(now, order) =>
      if s.cleaning then s
      else var (log, more) := EvictCaches(cfg, s.log, now, order); s.(log := log, cleaning := more)
    case Drop => if s.cleaning then s.(log := DropStale(s.log), cleaning := false) else s
  }

  ghost function Machine(cfg: Config): (State, Step) -> State {
    (s: State, step: Step) => Next(cfg, s, step)
  }

  ghost function Execute(cfg: Config, s: State, steps: seq<Step>): State {
    Run(Machine(cfg), s, steps)
  }

  // ---- What keeping the numbering means ----

  function InFlight(calls: seq<ConcurrentLog.Pending>, id: TaskId): nat {
    |ConcurrentLog.PendingNums(calls, id)|
  }

  /** A read of the task has filled the cache and not yet stored the number. */
  ghost predicate Unstored(readers: seq<Read>, id: TaskId) {
    exists k :: 0 <= k < |readers| && readers[k].Filled? && readers[k].id == id
  }

  function LastNum(events: seq<Event>): int
    requires events != []
  {
    events[|events| - 1].num
  }

  /** One task: its cached events are consecutive and fit the window, and the sequence number is ahead of the last one
      by exactly the calls in flight, except while a recovering read has yet to store it. */
  ghost predicate KeptFor(cfg: Config, s: State, id: TaskId) {
    var events := EventsOf(s.log, id);
    && Consecutive(events) && |events| <= cfg.maxEvents + 1
    && (id in s.log.tasks ==>
      && s.log.tasks[id].lastNum >= 0
      && (events != [] && !Unstored(s.readers, id) ==>
           LastNum(events) + InFlight(s.calls, id) == s.log.tasks[id].lastNum))
  }

  ghost predicate Kept(cfg: Config, s: State) {
    (forall p :: p in s.calls ==> p.event.num >= 1) && forall id: TaskId :: KeptFor(cfg, s, id)
  }

  /** When nothing of a task is under way, this is the numbering of its cache. */
  lemma KeptIsNumbered(cfg: Config, s: State, id: TaskId)
    requires Kept(cfg, s) && InFlight(s.calls, id) == 0 && !Unstored(s.readers, id)
    ensures EntryNumbered(cfg, s.log, id)
  {
    assert KeptFor(cfg, s, id);
  }

  /** What each section must find for the numbering to be kept. */
  ghost predicate Meets(cfg: Config, s: State, step: Step) {
    match step
    case Create(id, _, _) => EventsOf(s.log, id) == [] || Unstored(s.readers, id)
    case Publish(k, _) => k < |s.calls| && !s.cleaning ==> MayAppend(s, s.calls[k])
    case Fill(k, session, capacity) =>
      k < |s.readers| && s.readers[k].Missed? && !s.cleaning && Fills(cfg, s, s.readers[k].id, session, capacity) ==>
        EventsOf(s.log, s.readers[k].id) == [] || |session.value| >= cfg.maxEvents
    case Store(k, _) => k < |s.readers| && s.readers[k].Filled? ==> MayStore(s, k)
    case _ => true
  }

  /** The number to append follows the last cached one; on an empty cache, no other call of the task took one before. */
  ghost predicate MayAppend(s: State, p: ConcurrentLog.Pending) {
    var events := EventsOf(s.log, p.id);
    if events != [] then p.event.num == LastNum(events) + 1
    else p.id in s.log.tasks && !Unstored(s.readers, p.id) ==>
      p.event.num + InFlight(s.calls, p.id) - 1 == s.log.tasks[p.id].lastNum
  }

  /** The number to store is that of the last cached event, and no call is in flight, or else the two make up for each
      other, which only a call that appended in between can bring about. */
  ghost predicate MayStore(s: State, k: nat)
    requires k < |s.readers| && s.readers[k].Filled?
  {
    var id, events := s.readers[k].id, EventsOf(s.log, s.readers[k].id);
    id in s.log.tasks && events != [] && !Unstored(s.readers[k := Finished], id) ==>
      LastNum(events) + InFlight(s.calls, id) == s.readers[k].num
  }

  // ---- One section at a time ----

  ghost predicate Same(s: State, s': State, id: TaskId) {
    && EventsOf(s'.log, id) == EventsOf(s.log, id)
    && (id in s'.log.tasks <==> id in s.log.tasks)
    && (id in s.log.tasks ==> s'.log.tasks[id].lastNum == s.log.tasks[id].lastNum)
    && InFlight(s'.calls, id) == InFlight(s.calls, id)
    && (Unstored(s'.readers, id) <==> Unstored(s.readers, id))
  }

  lemma OneTaskChanges(cfg: Config, s: State, s': State, id: TaskId)
    requires Kept(cfg, s) && (forall other :: other != id ==> Same(s, s', other))
    requires forall p :: p in s'.calls ==> p.event.num >= 1
    ensures Kept(cfg, s') <==> KeptFor(cfg, s', id)
  {
    hide Consecutive;
    hide Unstored;
    hide InFlight;
    hide EventsOf;
    if KeptFor(cfg, s', id) {
      forall other: TaskId ensures KeptFor(cfg, s', other) {
        assert KeptFor(cfg, s, other);
        assert other != id ==> Same(s, s', other);
      }
    }
  }

  lemma CreateKept(cfg: Config, s: State, step: Step)
    requires step.Create? && Kept(cfg, s)
    ensures Kept(cfg, Next(cfg, s, step)) <==> Meets(cfg, s, step)
  {
    assert KeptFor(cfg, s, step.id);
    OneTaskChanges(cfg, s, Next(cfg, s, step), step.id);
  }

  lemma NumberKept(cfg: Config, s: State, step: Step)
    requires step.Number? && Kept(cfg, s)
    ensures Kept(cfg, Next(cfg, s, step))
  {
    hide ConcurrentLog.PendingNums;
    hide Unstored;
    hide Consecutive;
    if step.id in s.log.tasks {
      assert KeptFor(cfg, s, step.id);
      var s' := Next(cfg, s, step);
      var p := s'.calls[|s.calls|];
      forall other: TaskId
        ensures InFlight(s'.calls, other) == InFlight(s.calls, other) + (if other == step.id then 1 else 0)
      {
        ConcurrentLog.OneMorePending(s.calls, p, other);
      }
      OneTaskChanges(cfg, s, s', step.id);
    }
  }

  lemma PublishKept(cfg: Config, s: State, step: Step)
    requires step.Publish? && Kept(cfg, s) && cfg.maxEvents >= 1
    ensures Kept(cfg, Next(cfg, s, step)) <==> Meets(cfg, s, step)
  {
    hide ConcurrentLog.PendingNums;
    hide Consecutive;
    hide Window;
    hide Unstored;
    if step.call < |s.calls| && !s.cleaning {
      var k, s' := step.call, Next(cfg, s, step);
      var p := s.calls[k];
      assert KeptFor(cfg, s, p.id);
      forall other: TaskId
        ensures InFlight(s'.calls, other) == InFlight(s.calls, other) - (if other == p.id then 1 else 0)
      {
        ConcurrentLog.PendingAt(s.calls, k, other);
      }
      assert forall q :: q in s'.calls ==> q in s.calls;
      OneTaskChanges(cfg, s, s', p.id);
      AppendConsecutive(cfg.maxEvents, EventsOf(s.log, p.id), p.event);
    }
  }

  lemma AppendConsecutive(m: nat, events: seq<Event>, e: Event)
    requires m >= 1 && Consecutive(events) && e.num >= 1
    ensures var w := Window(m, events, e);
      && w != [] && LastNum(w) == e.num && |w| <= m + 1
      && (Consecutive(w) <==> events == [] || e.num == LastNum(events) + 1)
  {
    var w := Window(m, events, e);
    if events != [] && Consecutive(w) {
      assert w[|w| - 2] == events[|events| - 1] && w[|w| - 1] == e;
    }
  }

  lemma LookKept(cfg: Config, s: State, step: Step)
    requires step.Look? && Kept(cfg, s)
    ensures Kept(cfg, Next(cfg, s, step))
  {
    hide GetFromCache;
    if !s.cleaning {
      LookKeepsTasks(s.log, step.id, step.fromSeq, step.now);
      var s' := Next(cfg, s, step);
      forall other: TaskId ensures Same(s, s', other) {
        assert SameTask(s.log, s'.log, other);
        SameUnstored(s.readers, s'.readers, other);
      }
      assert KeptFor(cfg, s, step.id) && Same(s, s', step.id);
      OneTaskChanges(cfg, s, s', step.id);
    }
  }

  /** Adding a read that has filled nothing yet. */
  lemma SameUnstored(readers: seq<Read>, more: seq<Read>, id: TaskId)
    requires |more| == |readers| + 1 && more[..|readers|] == readers && !more[|readers|].Filled?
    ensures Unstored(more, id) <==> Unstored(readers, id)
  {
    if Unstored(readers, id) {
      var k :| 0 <= k < |readers| && readers[k].Filled? && readers[k].id == id;
      assert more[k] == readers[k];
    }
    if Unstored(more, id) {
      var k :| 0 <= k < |more| && more[k].Filled? && more[k].id == id;
      assert more[k] == readers[k];
    }
  }

  /** Changing one read changes what is unstored for its own task alone. */
  lemma OtherUnstored(readers: seq<Read>, k: nat, after: Read, id: TaskId)
    requires k < |readers| && (readers[k].Finished? || readers[k].id != id || readers[k].Missed?)
    requires !after.Filled? || after.id != id
    ensures Unstored(readers[k := after], id) <==> Unstored(readers, id)
  {
    var more := readers[k := after];
    if Unstored(readers, id) {
      var j :| 0 <= j < |readers| && readers[j].Filled? && readers[j].id == id;
      assert more[j] == readers[j];
    }
    if Unstored(more, id) {
      var j :| 0 <= j < |more| && more[j].Filled? && more[j].id == id;
      assert more[j] == readers[j];
    }
  }

  lemma FillKept(cfg: Config, s: State, step: Step)
    requires step.Fill? && Kept(cfg, s) && cfg.maxEvents >= 1
    ensures Kept(cfg, Next(cfg, s, step)) <==> Meets(cfg, s, step)
  {
    hide Consecutive;
    hide Unstored;
    hide LastN;
    hide RecoveredEvents;
    var k, s' := step.read, Next(cfg, s, step);
    if k < |s.readers| && s.readers[k].Missed? && !s.cleaning {
      var id := s.readers[k].id;
      assert KeptFor(cfg, s, id);
      forall other | other != id ensures Same(s, s', other) { OtherUnstored(s.readers, k, s'.readers[k], other); }
      OneTaskChanges(cfg, s, s', id);
      if Fills(cfg, s, id, step.session, step.capacity) {
        RecoveredAreNumbered(step.session.value);
        RecoveredTail(cfg.maxEvents, EventsOf(s.log, id), RecoveredEvents(step.session.value));
        FilledIsUnstored(s'.readers, k, id);
      } else {
        OtherUnstored(s.readers, k, Finished, id);
      }
    }
  }

  lemma RecoveredAreNumbered(messages: seq<Message>)
    ensures NumberedFrom(RecoveredEvents(messages), 1)
  {
  }

  lemma FilledIsUnstored(readers: seq<Read>, k: nat, id: TaskId)
    requires k < |readers| && readers[k].Filled? && readers[k].id == id
    ensures Unstored(readers, id)
  {
  }

  lemma StoreKept(cfg: Config, s: State, step: Step)
    requires step.Store? && Kept(cfg, s)
    ensures Kept(cfg, Next(cfg, s, step)) <==> Meets(cfg, s, step)
  {
    hide Consecutive;
    hide Unstored;
    var k, s' := step.read, Next(cfg, s, step);
    if k < |s.readers| && s.readers[k].Filled? {
      var id := s.readers[k].id;
      assert KeptFor(cfg, s, id);
      forall other | other != id ensures Same(s, s', other) { OtherUnstored(s.readers, k, Finished, other); }
      OneTaskChanges(cfg, s, s', id);
    }
  }

  lemma EvictKept(cfg: Config, s: State, step: Step)
    requires step.Evict? && Kept(cfg, s)
    ensures Kept(cfg, Next(cfg, s, step))
  {
    hide FastPath;
    hide Young;
    hide Survivors;
    hide Unstored;
    hide InFlight;
    var s' := Next(cfg, s, step);
    forall id: TaskId ensures KeptFor(cfg, s', id) {
      assert KeptFor(cfg, s, id);
    }
  }

  lemma DropKept(cfg: Config, s: State, step: Step)
    requires step.Drop? && Kept(cfg, s)
    ensures Kept(cfg, Next(cfg, s, step))
  {
    hide Unstored;
    hide InFlight;
    var s' := Next(cfg, s, step);
    forall id: TaskId ensures KeptFor(cfg, s', id) {
      assert KeptFor(cfg, s, id);
    }
  }

  /** Each section keeps the numbering exactly when it finds what it must. */
  lemma StepKept(cfg: Config, s: State, step: Step)
    requires Kept(cfg, s) && cfg.maxEvents >= 1
    ensures Kept(cfg, Next(cfg, s, step)) <==> Meets(cfg, s, step)
  {
    hide Kept;
    hide Next;
    match step
    case Create(_, _, _) => CreateKept(cfg, s, step);
    case Number(_, _) => NumberKept(cfg, s, step);
    case Publish(_, _) => PublishKept(cfg, s, step);
    case Look(_, _, _) => LookKept(cfg, s, step);
    case Fill(_, _, _) => FillKept(cfg, s, step);
    case Store(_, _) => StoreKept(cfg, s, step);
    case Evict(_, _) => EvictKept(cfg, s, step);
    case Drop => DropKept(cfg, s, step);
  }

  // ---- All schedules ----

  ghost function KeptNow(cfg: Config): State -> bool {
    s => Kept(cfg, s)
  }

  ghost function MeetsNow(cfg: Config): (State, Step) -> bool {
    (s: State, step: Step) => Meets(cfg, s, step)
  }

  /** Every schedule: the numbering is kept throughout exactly when every section finds what it must. */
  lemma KeptThroughoutIff(cfg: Config, s: State, steps: seq<Step>)
    requires cfg.maxEvents >= 1 && Kept(cfg, s)
    ensures (forall k :: 0 <= k <= |steps| ==> Kept(cfg, Execute(cfg, s, steps[..k])))
      <==> forall k :: 0 <= k < |steps| ==> Meets(cfg, Execute(cfg, s, steps[..k]), steps[k])
  {
    hide Kept;
    hide Meets;
    hide Next;
    forall s', step | Kept(cfg, s') ensures Kept(cfg, Next(cfg, s', step)) <==> Meets(cfg, s', step) {
      StepKept(cfg, s', step);
    }
    AlwaysIffGuarded(Machine(cfg), s, steps, KeptNow(cfg), MeetsNow(cfg));
  }

  lemma InitIsKept(cfg: Config)
    ensures Kept(cfg, INIT)
  {
  }

  // ---- A recovery must be left alone ----

  /** An output's section or a look: what may fall between the sections of a read without touching the cached recovery
      in any other way. */
  predicate Output(step: Step) {
    step.Number? || step.Publish? || step.Look?
  }

  function Numbers(steps: seq<Step>, id: TaskId): nat {
    if steps == [] then 0 else (if steps[0].Number? && steps[0].id == id then 1 else 0) + Numbers(steps[1..], id)
  }

  /** Where the cache and the calls in flight will bring the numbers of a task. */
  function Reach(s: State, id: TaskId): int {
    var events := EventsOf(s.log, id);
    (if events == [] then 0 else LastNum(events)) + InFlight(s.calls, id)
  }

  /** Earlier reads stand where they stood, and later ones have filled nothing. */
  predicate Extends(readers: seq<Read>, more: seq<Read>) {
    && |readers| <= |more| && more[..|readers|] == readers
    && forall k :: |readers| <= k < |more| ==> !more[k].Filled?
  }

  lemma OutputReach(cfg: Config, s: State, step: Step, id: TaskId)
    requires cfg.maxEvents >= 1 && Output(step) && Meets(cfg, s, step)
    requires id in s.log.tasks && EventsOf(s.log, id) != []
    ensures var s' := Next(cfg, s, step);
      && id in s'.log.tasks && EventsOf(s'.log, id) != [] && Extends(s.readers, s'.readers)
      && Reach(s', id) == Reach(s, id) + (if step.Number? && step.id == id then 1 else 0)
  {
    hide ConcurrentLog.PendingNums;
    hide GetFromCache;
    hide LastN;
    var s' := Next(cfg, s, step);
    match step
    case Number(other, o) =>
      if other in s.log.tasks {
        var p := s'.calls[|s.calls|];
        ConcurrentLog.OneMorePending(s.calls, p, id);
      }
    case Publish(k, _) =>
      if k < |s.calls| && !s.cleaning { ConcurrentLog.PendingAt(s.calls, k, id); }
    case Look(other, fromSeq, now) =>
      LookKeepsTasks(s.log, other, fromSeq, now);
      assert s' == s || SameTask(s.log, s'.log, id);
  }

  lemma {:induction false} OutputsReach(cfg: Config, s: State, steps: seq<Step>, id: TaskId)
    requires cfg.maxEvents >= 1 && forall step :: step in steps ==> Output(step)
    requires Guarded(Machine(cfg), s, steps, MeetsNow(cfg))
    requires id in s.log.tasks && EventsOf(s.log, id) != []
    ensures var s' := Execute(cfg, s, steps);
      && id in s'.log.tasks && EventsOf(s'.log, id) != [] && Extends(s.readers, s'.readers)
      && Reach(s', id) == Reach(s, id) + Numbers(steps, id)
    decreases |steps|
  {
    hide Next;
    hide Meets;
    hide Reach;
    if steps != [] {
      GuardedFront(Machine(cfg), s, steps, MeetsNow(cfg));
      assert Meets(cfg, s, steps[0]);
      OutputReach(cfg, s, steps[0], id);
      OutputsReach(cfg, Next(cfg, s, steps[0]), steps[1..], id);
    }
  }

  lemma FillReach(cfg: Config, s: State, r: nat, messages: seq<Message>, capacity: nat)
    requires cfg.maxEvents >= 1 && !s.cleaning && r < |s.readers| && s.readers[r].Missed? && messages != []
    requires EventsOf(s.log, s.readers[r].id) == []
    ensures var id, s' := s.readers[r].id, Next(cfg, s, Fill(r, Some(messages), capacity));
      && s'.readers == s.readers[r := Filled(id, |messages|)] && s'.log.tasks == s.log.tasks
      && EventsOf(s'.log, id) != [] && Reach(s', id) == |messages| + InFlight(s.calls, id)
  {
    hide RecoveredEvents;
    hide LastN;
    hide ConcurrentLog.PendingNums;
    var recovered := RecoveredEvents(messages);
    assert [] + recovered == recovered;
    RecoveredEnd(messages, cfg.maxEvents);
  }

  lemma RecoveredEnd(messages: seq<Message>, m: nat)
    requires m >= 1 && messages != []
    ensures LastN(RecoveredEvents(messages), m) != [] && LastNum(LastN(RecoveredEvents(messages), m)) == |messages|
  {
  }

  lemma OnlyThisUnstored(before: seq<Read>, r: nat, filled: Read, after: seq<Read>, id: TaskId)
    requires r < |before| && !Unstored(before, id) && Extends(before[r := filled], after)
    ensures !Unstored(after[r := Finished], id)
  {
    forall k | 0 <= k < |before| && k != r ensures after[k] == before[k] {
      assert after[k] == before[r := filled][k];
    }
  }

  lemma StoreDecides(cfg: Config, s: State, r: nat, ms: int)
    requires Kept(cfg, s) && r < |s.readers| && s.readers[r].Filled?
    requires var id := s.readers[r].id;
      id in s.log.tasks && EventsOf(s.log, id) != [] && !Unstored(s.readers[r := Finished], id)
    ensures Kept(cfg, Next(cfg, s, Store(r, ms))) <==> Reach(s, s.readers[r].id) == s.readers[r].num
  {
    hide Next;
    hide Kept;
    hide Unstored;
    StoreKept(cfg, s, Store(r, ms));
  }

  lemma KeptIsGuarded(cfg: Config, s: State, steps: seq<Step>)
    requires cfg.maxEvents >= 1 && forall k :: 0 <= k <= |steps| ==> Kept(cfg, Execute(cfg, s, steps[..k]))
    ensures Kept(cfg, s) && Kept(cfg, Execute(cfg, s, steps)) && Guarded(Machine(cfg), s, steps, MeetsNow(cfg))
  {
    hide Kept;
    hide Meets;
    hide Next;
    assert steps[..0] == [] && steps[..|steps|] == steps;
    assert Kept(cfg, Execute(cfg, s, steps[..0])) && Kept(cfg, Execute(cfg, s, steps[..|steps|]));
    KeptThroughoutIff(cfg, s, steps);
  }

  /** A read recovers into the empty cache of a known task, and outputs go on while it has not stored the number yet,
      all of them so as to keep the numbering. Storing the number keeps it too if and only if no call of the task was in
      flight when the cache was filled and none has taken a number since. */
  lemma RecoveryMustBeAlone(cfg: Config, s: State, r: nat, messages: seq<Message>, capacity: nat,
                            between: seq<Step>, ms: int)
    requires cfg.maxEvents >= 1 && !s.cleaning && r < |s.readers| && s.readers[r].Missed? && messages != []
    requires var id := s.readers[r].id; id in s.log.tasks && EventsOf(s.log, id) == [] && !Unstored(s.readers, id)
    requires forall step :: step in between ==> Output(step)
    requires var filled := Next(cfg, s, Fill(r, Some(messages), capacity));
      forall k :: 0 <= k <= |between| ==> Kept(cfg, Execute(cfg, filled, between[..k]))
    ensures var id, filled := s.readers[r].id, Next(cfg, s, Fill(r, Some(messages), capacity));
      (Kept(cfg, Next(cfg, Execute(cfg, filled, between), Store(r, ms)))
       <==> InFlight(s.calls, id) == 0 && Numbers(between, id) == 0)
  {
    hide Next;
    hide Kept;
    hide Unstored;
    hide Execute;
    hide Reach;
    hide EventsOf;
    hide InFlight;
    hide Numbers;
    hide Output;
    var id, filled := s.readers[r].id, Next(cfg, s, Fill(r, Some(messages), capacity));
    var last := Execute(cfg, filled, between);
    KeptIsGuarded(cfg, filled, between);
    FillReach(cfg, s, r, messages, capacity);
    OutputsReach(cfg, filled, between, id);
    OnlyThisUnstored(s.readers, r, Filled(id, |messages|), last.readers, id);
    StoreDecides(cfg, last, r, ms);
  }

  /** Two reads of a task have both found nothing, as when two devices connect at once, and both recover. The second
      fill keeps the numbering if and only if it brings at least a whole window. */
  lemma SecondRecovery(cfg: Config, s: State, first: nat, second: nat, one: seq<Message>, two: seq<Message>,
                       capacity: nat)
    requires cfg.maxEvents >= 1 && Kept(cfg, s) && !s.cleaning && one != [] && two != []
    requires first < |s.readers| && second < |s.readers| && first != second
    requires s.readers[first].Missed? && s.readers[second].Missed? && s.readers[first].id == s.readers[second].id
    requires EventsOf(s.log, s.readers[first].id) == []
    ensures var filled := Next(cfg, s, Fill(first, Some(one), capacity));
      && Kept(cfg, filled)
      && (Kept(cfg, Next(cfg, filled, Fill(second, Some(two), capacity))) <==> |two| >= cfg.maxEvents)
  {
    hide Kept;
    hide Next;
    hide LastN;
    hide RecoveredEvents;
    var filled := Next(cfg, s, Fill(first, Some(one), capacity));
    FillReach(cfg, s, first, one, capacity);
    StepKept(cfg, s, Fill(first, Some(one), capacity));
    StepKept(cfg, filled, Fill(second, Some(two), capacity));
    FillFits(cfg, s, first, one, capacity);
  }

  /** Where the two reads end up, however their stores fall: `last` is the read that stores last. */
  function TwoRecoveries(first: nat, second: nat, one: seq<Message>, two: seq<Message>, capacity: nat, ms: int,
                         early: bool, last: nat): seq<Step>
  {
    var fill1, fill2 := Fill(first, Some(one), capacity), Fill(second, Some(two), capacity);
    if last == first then [fill1, fill2, Store(second, ms), Store(first, ms)]
    else if early then [fill1, Store(first, ms), fill2, Store(second, ms)]
    else [fill1, fill2, Store(first, ms), Store(second, ms)]
  }

  lemma FillDoes(cfg: Config, s: State, r: nat, messages: seq<Message>, capacity: nat)
    requires !s.cleaning && r < |s.readers| && s.readers[r].Missed? && messages != []
    requires |EventsOf(s.log, s.readers[r].id)| <= cfg.maxEvents
    ensures var id, s' := s.readers[r].id, Next(cfg, s, Fill(r, Some(messages), capacity));
      && s'.calls == s.calls && !s'.cleaning && s'.log.tasks == s.log.tasks
      && s'.readers == s.readers[r := Filled(id, |messages|)]
      && EventsOf(s'.log, id) == LastN(EventsOf(s.log, id) + RecoveredEvents(messages), cfg.maxEvents)
      && forall other :: other != id ==> EventsOf(s'.log, other) == EventsOf(s.log, other)
  {
    hide RecoveredEvents;
    hide LastN;
  }

  lemma StoreDoes(cfg: Config, s: State, r: nat, ms: int)
    requires r < |s.readers| && s.readers[r].Filled? && s.readers[r].id in s.log.tasks
    ensures var id, s' := s.readers[r].id, Next(cfg, s, Store(r, ms));
      && s'.calls == s.calls && s'.cleaning == s.cleaning
      && (forall other :: EventsOf(s'.log, other) == EventsOf(s.log, other))
      && s'.readers == s.readers[r := Finished]
      && s'.log.tasks.Keys == s.log.tasks.Keys && s'.log.tasks[id].lastNum == s.readers[r].num
      && forall other :: other in s.log.tasks && other != id ==> s'.log.tasks[other] == s.log.tasks[other]
  {
  }

  /** The state after both reads, the last of which stored this number. */
  ghost predicate Ends(cfg: Config, s: State, s': State, id: TaskId, one: seq<Message>, two: seq<Message>, num: int) {
    && s'.calls == s.calls
    && EventsOf(s'.log, id) == LastN(LastN(RecoveredEvents(one), cfg.maxEvents) + RecoveredEvents(two), cfg.maxEvents)
    && s'.log.tasks.Keys == s.log.tasks.Keys && id in s.log.tasks && s'.log.tasks[id].lastNum == num
    && (forall other :: other != id ==> EventsOf(s'.log, other) == EventsOf(s.log, other))
    && (forall other :: other != id && other in s.log.tasks ==> s'.log.tasks[other] == s.log.tasks[other])
  }

  lemma FillsThenStores(cfg: Config, s: State, first: nat, second: nat, one: seq<Message>, two: seq<Message>,
                        capacity: nat, ms: int, a: nat, b: nat)
    requires cfg.maxEvents >= 1 && !s.cleaning && one != [] && two != []
    requires first < |s.readers| && second < |s.readers| && first != second
    requires s.readers[first].Missed? && s.readers[second].Missed? && s.readers[first].id == s.readers[second].id
    requires var id := s.readers[first].id; EventsOf(s.log, id) == [] && id in s.log.tasks
    requires (a == first && b == second) || (a == second && b == first)
    ensures var s' := Execute(cfg, s,
        [Fill(first, Some(one), capacity), Fill(second, Some(two), capacity), Store(a, ms), Store(b, ms)]);
      && Ends(cfg, s, s', s.readers[first].id, one, two, if b == first then |one| else |two|)
      && s'.readers == s.readers[first := Finished][second := Finished]
  {
    hide Next;
    hide LastN;
    hide EventsOf;
    hide RecoveredEvents;
    var fill1, fill2 := Fill(first, Some(one), capacity), Fill(second, Some(two), capacity);
    FillDoes(cfg, s, first, one, capacity);
    assert [] + RecoveredEvents(one) == RecoveredEvents(one);
    var s1 := Next(cfg, s, fill1);
    FillDoes(cfg, s1, second, two, capacity);
    var s2 := Next(cfg, s1, fill2);
    StoreDoes(cfg, s2, a, ms);
    StoreDoes(cfg, Next(cfg, s2, Store(a, ms)), b, ms);
    RunFour(Machine(cfg), s, fill1, fill2, Store(a, ms), Store(b, ms));
  }

  lemma OneAfterTheOther(cfg: Config, s: State, first: nat, second: nat, one: seq<Message>, two: seq<Message>,
                         capacity: nat, ms: int)
    requires cfg.maxEvents >= 1 && !s.cleaning && one != [] && two != []
    requires first < |s.readers| && second < |s.readers| && first != second
    requires s.readers[first].Missed? && s.readers[second].Missed? && s.readers[first].id == s.readers[second].id
    requires var id := s.readers[first].id; EventsOf(s.log, id) == [] && id in s.log.tasks
    ensures var s' := Execute(cfg, s,
        [Fill(first, Some(one), capacity), Store(first, ms), Fill(second, Some(two), capacity), Store(second, ms)]);
      && Ends(cfg, s, s', s.readers[first].id, one, two, |two|)
      && s'.readers == s.readers[first := Finished][second := Finished]
  {
    hide Next;
    hide LastN;
    hide EventsOf;
    hide RecoveredEvents;
    var fill1, fill2 := Fill(first, Some(one), capacity), Fill(second, Some(two), capacity);
    FillDoes(cfg, s, first, one, capacity);
    assert [] + RecoveredEvents(one) == RecoveredEvents(one);
    var s1 := Next(cfg, s, fill1);
    StoreDoes(cfg, s1, first, ms);
    var s2 := Next(cfg, s1, Store(first, ms));
    FillDoes(cfg, s2, second, two, capacity);
    var s3 := Next(cfg, s2, fill2);
    StoreDoes(cfg, s3, second, ms);
    RunFour(Machine(cfg), s, fill1, Store(first, ms), fill2, Store(second, ms));
    assert s2.readers == s.readers[first := Finished];
  }

  lemma TwoRecoveriesEnd(cfg: Config, s: State, first: nat, second: nat, one: seq<Message>, two: seq<Message>,
                         capacity: nat, ms: int, early: bool, last: nat)
    requires cfg.maxEvents >= 1 && !s.cleaning && one != [] && two != []
    requires first < |s.readers| && second < |s.readers| && first != second
    requires s.readers[first].Missed? && s.readers[second].Missed? && s.readers[first].id == s.readers[second].id
    requires var id := s.readers[first].id; EventsOf(s.log, id) == [] && id in s.log.tasks
    requires last == first || last == second
    ensures var s' := Execute(cfg, s, TwoRecoveries(first, second, one, two, capacity, ms, early, last));
      && Ends(cfg, s, s', s.readers[first].id, one, two, if last == first then |one| else |two|)
      && s'.readers == s.readers[first := Finished][second := Finished]
  {
    hide Execute;
    hide Ends;
    if last == second && early {
      OneAfterTheOther(cfg, s, first, second, one, two, capacity, ms);
    } else {
      FillsThenStores(cfg, s, first, second, one, two, capacity, ms, if last == first then second else first, last);
    }
  }

  /** Two reads of a known task both recover, in any order of their stores; `first` is the one that fills first. In the
      end the numbering is kept if and only if the second fill brings at least a whole window and the number stored last
      is that of the second one's last event, with no call of the task in flight. */
  lemma TwoRecoveriesKept(cfg: Config, s: State, first: nat, second: nat, one: seq<Message>, two: seq<Message>,
                          capacity: nat, ms: int, early: bool, last: nat)
    requires cfg.maxEvents >= 1 && Kept(cfg, s) && !s.cleaning && one != [] && two != []
    requires first < |s.readers| && second < |s.readers| && first != second && (last == first || last == second)
    requires s.readers[first].Missed? && s.readers[second].Missed? && s.readers[first].id == s.readers[second].id
    requires var id := s.readers[first].id;
      EventsOf(s.log, id) == [] && id in s.log.tasks && !Unstored(s.readers, id)
    ensures var steps := TwoRecoveries(first, second, one, two, capacity, ms, early, last);
      var stored := if last == first then |one| else |two|;
      (Kept(cfg, Execute(cfg, s, steps))
       <==> |two| >= cfg.maxEvents && stored == |two| + InFlight(s.calls, s.readers[first].id))
  {
    hide Execute;
    hide TwoRecoveries;
    hide Consecutive;
    hide EventsOf;
    hide LastN;
    hide RecoveredEvents;
    hide InFlight;
    hide Unstored;
    var id := s.readers[first].id;
    var s' := Execute(cfg, s, TwoRecoveries(first, second, one, two, capacity, ms, early, last));
    TwoRecoveriesEnd(cfg, s, first, second, one, two, capacity, ms, early, last);
    forall other: TaskId ensures Unstored(s'.readers, other) <==> Unstored(s.readers, other) {
      OtherUnstored(s.readers, first, Finished, other);
      OtherUnstored(s.readers[first := Finished], second, Finished, other);
    }
    forall other | other != id ensures Same(s, s', other) {
    }
    OneTaskChanges(cfg, s, s', id);
    SecondTail(cfg.maxEvents, one, two);
  }

  lemma SecondTail(m: nat, one: seq<Message>, two: seq<Message>)
    requires m >= 1 && one != [] && two != []
    ensures var events := LastN(LastN(RecoveredEvents(one), m) + RecoveredEvents(two), m);
      && events != [] && |events| <= m && LastNum(events) == |two|
      && (Consecutive(events) <==> |two| >= m)
  {
    hide RecoveredEvents;
    hide LastN;
    RecoveredAreNumbered(one);
    RecoveredAreNumbered(two);
    RecoveredTail(m, [], RecoveredEvents(one));
    assert [] + RecoveredEvents(one) == RecoveredEvents(one);
    RecoveredEnd(one, m);
    RecoveredTail(m, LastN(RecoveredEvents(one), m), RecoveredEvents(two));
    AppendedStays(m, LastN(RecoveredEvents(one), m), RecoveredEvents(two));
  }

  lemma AppendedStays(m: nat, a: seq<Event>, b: seq<Event>)
    requires m >= 1 && b != []
    ensures LastN(a + b, m) != []
  {
  }

  lemma FillFits(cfg: Config, s: State, r: nat, messages: seq<Message>, capacity: nat)
    requires cfg.maxEvents >= 1 && !s.cleaning && r < |s.readers| && s.readers[r].Missed? && messages != []
    requires EventsOf(s.log, s.readers[r].id) == []
    ensures var s' := Next(cfg, s, Fill(r, Some(messages), capacity));
      |EventsOf(s'.log, s.readers[r].id)| <= cfg.maxEvents && !s'.cleaning
  {
    hide RecoveredEvents;
  }

  // ---- A discipline that keeps the numbering ----

  /** A task is created with nothing cached or under way; its outputs append oldest first; and while a read recovers,
      from the fill, which finds nothing cached and nothing in flight, to the store, the task has no output and no other
      recovery. */
  ghost predicate Orderly(cfg: Config, s: State, step: Step) {
    match step
    case Create(id, _, _) => Clear(s, id)
    case Number(id, _) => !Unstored(s.readers, id)
    case Publish(k, _) =>
      k < |s.calls| && !s.cleaning ==>
        !Unstored(s.readers, s.calls[k].id) && forall j :: 0 <= j < k ==> s.calls[j].id != s.calls[k].id
    case Fill(k, session, capacity) =>
      k < |s.readers| && s.readers[k].Missed? && !s.cleaning && Fills(cfg, s, s.readers[k].id, session, capacity) ==>
        Clear(s, s.readers[k].id)
    case _ => true
  }

  ghost predicate Clear(s: State, id: TaskId) {
    EventsOf(s.log, id) == [] && InFlight(s.calls, id) == 0 && !Unstored(s.readers, id)
  }

  /** The numbers in flight continue those cached and end at the sequence number. */
  ghost predicate Aligned(s: State, id: TaskId) {
    var events, nums := EventsOf(s.log, id), ConcurrentLog.PendingNums(s.calls, id);
    && (forall i :: 0 <= i < |nums| ==> nums[i] == nums[0] + i)
    && (nums != [] && events != [] ==> nums[0] == LastNum(events) + 1)
    && (id in s.log.tasks && !Unstored(s.readers, id) && nums != [] ==> nums[|nums| - 1] == s.log.tasks[id].lastNum)
  }

  /** At most one read of the task has yet to store its number; then no call is in flight, and the cache ends there. */
  ghost predicate OneRecovers(s: State, id: TaskId) {
    forall k :: 0 <= k < |s.readers| && s.readers[k].Filled? && s.readers[k].id == id ==>
      && InFlight(s.calls, id) == 0
      && (EventsOf(s.log, id) != [] ==> LastNum(EventsOf(s.log, id)) == s.readers[k].num)
      && !Unstored(s.readers[k := Finished], id)
  }

  ghost predicate InLine(cfg: Config, s: State) {
    Kept(cfg, s) && forall id: TaskId :: Aligned(s, id) && OneRecovers(s, id)
  }

  lemma OldestNumber(calls: seq<ConcurrentLog.Pending>, k: nat)
    requires k < |calls| && forall j :: 0 <= j < k ==> calls[j].id != calls[k].id
    ensures var id := calls[k].id;
      && ConcurrentLog.PendingNums(calls, id) ==
         [calls[k].event.num] + ConcurrentLog.PendingNums(calls[..k] + calls[k + 1..], id)
  {
    hide ConcurrentLog.PendingNums;
    var id := calls[k].id;
    ConcurrentLog.PendingAt(calls, k, id);
    NoneBefore(calls[..k], id);
    var rest := ConcurrentLog.PendingNums(calls[k + 1..], id);
    assert [] + [calls[k].event.num] + rest == [calls[k].event.num] + rest && [] + rest == rest;
  }

  lemma OthersNumbers(calls: seq<ConcurrentLog.Pending>, k: nat, id: TaskId)
    requires k < |calls| && calls[k].id != id
    ensures ConcurrentLog.PendingNums(calls[..k] + calls[k + 1..], id) == ConcurrentLog.PendingNums(calls, id)
  {
    hide ConcurrentLog.PendingNums;
    ConcurrentLog.PendingAt(calls, k, id);
    var before := ConcurrentLog.PendingNums(calls[..k], id);
    assert before + [] == before;
  }

  lemma {:induction false} NoneBefore(calls: seq<ConcurrentLog.Pending>, id: TaskId)
    requires forall j :: 0 <= j < |calls| ==> calls[j].id != id
    ensures ConcurrentLog.PendingNums(calls, id) == []
  {
    if calls != [] { NoneBefore(calls[1..], id); }
  }

  /** An orderly section finds what it must. */
  lemma OrderlyMeets(cfg: Config, s: State, step: Step)
    requires InLine(cfg, s) && Orderly(cfg, s, step)
    ensures Meets(cfg, s, step)
  {
    hide ConcurrentLog.PendingNums;
    hide Unstored;
    hide KeptFor;
    match step
    case Publish(k, _) =>
      if k < |s.calls| && !s.cleaning {
        assert Aligned(s, s.calls[k].id);
        OldestNumber(s.calls, k);
      }
    case Store(k, _) => if k < |s.readers| && s.readers[k].Filled? { assert OneRecovers(s, s.readers[k].id); }
    case _ =>
  }

  lemma KeptAhead(cfg: Config, s: State, id: TaskId)
    requires Kept(cfg, s)
    ensures id in s.log.tasks && EventsOf(s.log, id) != [] && !Unstored(s.readers, id) ==>
      LastNum(EventsOf(s.log, id)) + InFlight(s.calls, id) == s.log.tasks[id].lastNum
  {
    assert KeptFor(cfg, s, id);
  }

  lemma NumberInLine(cfg: Config, s: State, step: Step, id: TaskId)
    requires step.Number? && Kept(cfg, s) && Aligned(s, id) && OneRecovers(s, id) && Orderly(cfg, s, step)
    ensures Aligned(Next(cfg, s, step), id) && OneRecovers(Next(cfg, s, step), id)
  {
    hide ConcurrentLog.PendingNums;
    hide Unstored;
    hide Kept;
    KeptAhead(cfg, s, id);
    if step.id in s.log.tasks {
      var p := Next(cfg, s, step).calls[|s.calls|];
      ConcurrentLog.OneMorePending(s.calls, p, id);
      FilledAreUnstored(s.readers, id);
    }
  }

  lemma FilledAreUnstored(readers: seq<Read>, id: TaskId)
    ensures forall k :: 0 <= k < |readers| && readers[k].Filled? && readers[k].id == id ==> Unstored(readers, id)
  {
  }

  lemma PublishInLine(cfg: Config, s: State, step: Step, id: TaskId)
    requires cfg.maxEvents >= 1
    requires step.Publish? && Kept(cfg, s) && Aligned(s, id) && OneRecovers(s, id) && Orderly(cfg, s, step)
    ensures Aligned(Next(cfg, s, step), id) && OneRecovers(Next(cfg, s, step), id)
  {
    hide ConcurrentLog.PendingNums;
    hide Unstored;
    hide LastN;
    hide Kept;
    if step.call < |s.calls| && !s.cleaning {
      var k := step.call;
      FilledAreUnstored(s.readers, id);
      if s.calls[k].id == id {
        OldestNumber(s.calls, k);
        var nums := ConcurrentLog.PendingNums(s.calls, id);
        var rest := ConcurrentLog.PendingNums(Next(cfg, s, step).calls, id);
        assert forall i :: 0 <= i < |rest| ==> rest[i] == nums[i + 1];
      } else {
        OthersNumbers(s.calls, k, id);
      }
    }
  }

  lemma LookInLine(cfg: Config, s: State, step: Step, id: TaskId)
    requires step.Look? && Aligned(s, id) && OneRecovers(s, id)
    ensures Aligned(Next(cfg, s, step), id) && OneRecovers(Next(cfg, s, step), id)
  {
    hide ConcurrentLog.PendingNums;
    hide GetFromCache;
    hide Unstored;
    if !s.cleaning {
      var s' := Next(cfg, s, step);
      LookKeepsTasks(s.log, step.id, step.fromSeq, step.now);
      assert SameTask(s.log, s'.log, id);
      SameUnstored(s.readers, s'.readers, id);
      forall k | 0 <= k < |s.readers| && s.readers[k].Filled? && s.readers[k].id == id
        ensures !Unstored(s'.readers[k := Finished], id)
      {
        SameUnstored(s.readers[k := Finished], s'.readers[k := Finished], id);
      }
    }
  }

  lemma CacheShrinks(s: State, s': State, id: TaskId)
    requires Aligned(s, id) && OneRecovers(s, id) && s'.calls == s.calls && s'.readers == s.readers
    requires EventsOf(s'.log, id) == EventsOf(s.log, id) || EventsOf(s'.log, id) == []
    requires id in s'.log.tasks ==> id in s.log.tasks && s'.log.tasks[id].lastNum == s.log.tasks[id].lastNum
    ensures Aligned(s', id) && OneRecovers(s', id)
  {
    hide ConcurrentLog.PendingNums;
    hide Unstored;
  }

  lemma CleanupShrinks(cfg: Config, s: State, step: Step, id: TaskId)
    requires step.Evict? || step.Drop?
    ensures var s' := Next(cfg, s, step);
      && s'.calls == s.calls && s'.readers == s.readers
      && (EventsOf(s'.log, id) == EventsOf(s.log, id) || EventsOf(s'.log, id) == [])
      && (id in s'.log.tasks ==> id in s.log.tasks && s'.log.tasks[id].lastNum == s.log.tasks[id].lastNum)
  {
    hide FastPath;
    hide Young;
    hide Survivors;
  }

  lemma CreateInLine(cfg: Config, s: State, step: Step, id: TaskId)
    requires step.Create? && Aligned(s, id) && OneRecovers(s, id) && Orderly(cfg, s, step)
    ensures Aligned(Next(cfg, s, step), id) && OneRecovers(Next(cfg, s, step), id)
  {
    hide ConcurrentLog.PendingNums;
    hide Unstored;
  }

  lemma FillInLine(cfg: Config, s: State, step: Step, id: TaskId)
    requires cfg.maxEvents >= 1
    requires step.Fill? && Aligned(s, id) && OneRecovers(s, id) && Orderly(cfg, s, step)
    ensures Aligned(Next(cfg, s, step), id) && OneRecovers(Next(cfg, s, step), id)
  {
    hide ConcurrentLog.PendingNums;
    hide Unstored;
    hide RecoveredEvents;
    var k, s' := step.read, Next(cfg, s, step);
    if k < |s.readers| && s.readers[k].Missed? && !s.cleaning {
      var own := s.readers[k].id;
      FilledAreUnstored(s.readers, id);
      if own == id && Fills(cfg, s, id, step.session, step.capacity) {
        FillReach(cfg, s, k, step.session.value, step.capacity);
        assert s'.readers[k := Finished] == s.readers[k := Finished];
        OtherUnstored(s.readers, k, Finished, id);
      } else {
        OtherUnstored(s.readers, k, s'.readers[k], id);
        forall j | 0 <= j < |s.readers| && s.readers[j].Filled? && s.readers[j].id == id
          ensures !Unstored(s'.readers[j := Finished], id)
        {
          assert s'.readers[j := Finished] == s.readers[j := Finished][k := s'.readers[k]];
          OtherUnstored(s.readers[j := Finished], k, s'.readers[k], id);
        }
      }
    }
  }

  lemma StoreInLine(cfg: Config, s: State, step: Step, id: TaskId)
    requires step.Store? && Aligned(s, id) && OneRecovers(s, id)
    ensures Aligned(Next(cfg, s, step), id) && OneRecovers(Next(cfg, s, step), id)
  {
    hide ConcurrentLog.PendingNums;
    hide Unstored;
    var k, s' := step.read, Next(cfg, s, step);
    if k < |s.readers| && s.readers[k].Filled? {
      FilledAreUnstored(s.readers, id);
      FilledAreUnstored(s'.readers, id);
      if s.readers[k].id != id {
        OtherUnstored(s.readers, k, Finished, id);
        forall j | 0 <= j < |s'.readers| && s'.readers[j].Filled? && s'.readers[j].id == id
          ensures !Unstored(s'.readers[j := Finished], id)
        {
          assert s'.readers[j := Finished] == s.readers[j := Finished][k := Finished];
          OtherUnstored(s.readers[j := Finished], k, Finished, id);
        }
      }
    }
  }

  lemma OrderlyStaysInLine(cfg: Config, s: State, step: Step)
    requires cfg.maxEvents >= 1 && InLine(cfg, s) && Orderly(cfg, s, step)
    ensures InLine(cfg, Next(cfg, s, step))
  {
    hide Kept;
    hide Aligned;
    hide OneRecovers;
    hide Orderly;
    hide Next;
    hide Meets;
    OrderlyMeets(cfg, s, step);
    StepKept(cfg, s, step);
    var s' := Next(cfg, s, step);
    forall id: TaskId ensures Aligned(s', id) && OneRecovers(s', id) {
      match step
      case Create(_, _, _) => CreateInLine(cfg, s, step, id);
      case Number(_, _) => NumberInLine(cfg, s, step, id);
      case Publish(_, _) => PublishInLine(cfg, s, step, id);
      case Look(_, _, _) => LookInLine(cfg, s, step, id);
      case Fill(_, _, _) => FillInLine(cfg, s, step, id);
      case Store(_, _) => StoreInLine(cfg, s, step, id);
      case _ => CleanupShrinks(cfg, s, step, id); CacheShrinks(s, s', id);
    }
  }

  lemma {:induction false} OrderlyFrom(cfg: Config, s: State, steps: seq<Step>)
    requires cfg.maxEvents >= 1 && InLine(cfg, s)
    requires forall k :: 0 <= k < |steps| ==> Orderly(cfg, Execute(cfg, s, steps[..k]), steps[k])
    ensures InLine(cfg, Execute(cfg, s, steps))
    decreases |steps|
  {
    hide InLine;
    hide Orderly;
    hide Next;
    if steps != [] {
      var n := |steps| - 1;
      var before := steps[..n];
      assert forall k :: 0 <= k < n ==> before[..k] == steps[..k];
      OrderlyFrom(cfg, s, before);
      RunPrefix(Machine(cfg), s, steps, n);
      assert steps[..n + 1] == steps;
      OrderlyStaysInLine(cfg, Execute(cfg, s, before), steps[n]);
    }
  }

  /** Every orderly schedule keeps the numbering throughout: at every point, the cached events of every task are
      consecutive, and those of a known task nothing of which is under way end at its sequence number. */
  lemma OrderlySchedulesKeepNumbering(cfg: Config, steps: seq<Step>)
    requires cfg.maxEvents >= 1
    requires forall k :: 0 <= k < |steps| ==> Orderly(cfg, Execute(cfg, INIT, steps[..k]), steps[k])
    ensures var s := Execute(cfg, INIT, steps);
      && Kept(cfg, s)
      && forall id: TaskId :: InFlight(s.calls, id) == 0 && !Unstored(s.readers, id) ==> EntryNumbered(cfg, s.log, id)
  {
    hide Kept;
    hide Orderly;
    hide Execute;
    hide EntryNumbered;
    hide Unstored;
    InitInLine(cfg);
    OrderlyFrom(cfg, INIT, steps);
    var s := Execute(cfg, INIT, steps);
    forall id: TaskId | InFlight(s.calls, id) == 0 && !Unstored(s.readers, id) ensures EntryNumbered(cfg, s.log, id) {
      KeptIsNumbered(cfg, s, id);
    }
  }

  lemma InitInLine(cfg: Config)
    ensures InLine(cfg, INIT)
  {
    hide Kept;
    InitIsKept(cfg);
  }

  // ---- Calls that nothing interrupts ----

  /** An output is its two sections. */
  lemma AddIsTwoSections(cfg: Config, s: State, id: TaskId, o: Output)
    requires !s.cleaning
    ensures var s' := Execute(cfg, s, [Number(id, o), Publish(|s.calls|, o.now)]);
      s'.log == AddOutput(cfg, s.log, id, o) && s'.calls == s.calls
  {
    RunTwo(Machine(cfg), s, Number(id, o), Publish(|s.calls|, o.now));
    if id in s.log.tasks {
      var mid := Next(cfg, s, Number(id, o));
      assert mid.calls[..|s.calls|] + mid.calls[|s.calls| + 1..] == s.calls;
    }
  }

  /** A read is its three. */
  lemma GetIsThreeSections(cfg: Config, s: State, id: TaskId, fromSeq: int, session: Option<seq<Message>>,
                           capacity: nat, ms: int, now: int)
    requires !s.cleaning
    ensures var r := |s.readers|;
      Execute(cfg, s, [Look(id, fromSeq, now), Fill(r, session, capacity), Store(r, ms)]).log
        == GetOrPanic(cfg, s.log, id, fromSeq, session, capacity, ms, now).1
  {
    hide Touch;
    hide ReadEvents;
    hide RecoveredEvents;
    var r := |s.readers|;
    var look, fill, store := Look(id, fromSeq, now), Fill(r, session, capacity), Store(r, ms);
    RunTwo(Machine(cfg), s, look, fill);
    RunAppend(Machine(cfg), s, [look, fill], [store]);
    RunOne(Machine(cfg), Execute(cfg, s, [look, fill]), store);
    assert [look, fill] + [store] == [look, fill, store];
    ReadKeepsEvents(s.log, id, fromSeq, now);
  }

  /** A cleanup is its two. */
  lemma CleanupIsTwoSections(cfg: Config, s: State, now: int, order: seq<TaskId>)
    requires !s.cleaning
    ensures Execute(cfg, s, [Evict(now, order), Drop]).log == Cleanup(cfg, s.log, now, order).0
  {
    hide Young;
    hide FastPath;
    hide LruRuns;
    hide EvictInOrder;
    RunTwo(Machine(cfg), s, Evict(now, order), Drop);
    if Young(cfg, s.log.caches, now) == map[] && !FastPath(cfg, s.log.caches) {
      NothingSurvives(cfg, s.log.caches, now, order);
    }
  }

  lemma NothingSurvives(cfg: Config, caches: Caches, now: int, order: seq<TaskId>)
    requires Young(cfg, caches, now) == map[] && !FastPath(cfg, caches)
    ensures Survivors(cfg, caches, now, order) == map[]
  {
  }
}
