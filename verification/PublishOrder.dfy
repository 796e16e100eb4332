/** When concurrent outputs leave a task's cache in number order, which is what incremental reads need. */
module PublishOrder {
  import opened Json
  import opened EventLog
  import opened Recovery
  import opened ConcurrentLog
  import opened Runs

  ghost predicate Ordered(s: State, id: TaskId) {
    NumberOrder(EventsOf(s.log, id))
  }

  /** The step is an append of this task's. */
  predicate Appends(s: State, step: Step, id: TaskId) {
    step.Publish? && step.call < |s.pending| && s.pending[step.call].id == id
  }

  /** An append does not go below the last cached number. */
  predicate NotBelow(s: State, step: Step, id: TaskId) {
    var events := EventsOf(s.log, id);
    Appends(s, step, id) && events != [] ==> s.pending[step.call].event.num >= events[|events| - 1].num
  }

  /** An append takes the task's oldest call in flight. */
  predicate TakesOldest(s: State, step: Step, id: TaskId) {
    Appends(s, step, id) ==> forall j :: 0 <= j < step.call ==> s.pending[j].id != id
  }

  // ---- The exact condition on appends ----

  lemma StepKeepsOrder(cfg: Config, s: State, step: Step, id: TaskId)
    requires cfg.maxEvents >= 1 && Ordered(s, id)
    ensures Ordered(Next(cfg, s, step), id) <==> NotBelow(s, step, id)
  {
    hide Next;
    match step
    case Number(other, o) => NumberEffect(cfg, s, other, o, id);
    case Publish(k, now) =>
      PublishNothing(cfg, s, k, now);
      if k < |s.pending| {
        PublishEffect(cfg, s, k, now, id);
        if s.pending[k].id == id { WindowOrder(cfg.maxEvents, EventsOf(s.log, id), s.pending[k].event); }
      }
  }

  lemma WindowOrder(m: nat, events: seq<Event>, e: Event)
    requires m >= 1 && NumberOrder(events)
    ensures NumberOrder(Window(m, events, e)) <==> events == [] || e.num >= events[|events| - 1].num
    ensures Window(m, events, e)[|Window(m, events, e)| - 1] == e
  {
    var w := Window(m, events, e);
    if events != [] && NumberOrder(w) {
      assert w[|w| - 2] == events[|events| - 1] && w[|w| - 1] == e;
    }
  }

  /** Every schedule: a task's cache stays in number order throughout exactly when no append of the task goes below the
      last cached number. */
  lemma OrderedThroughoutIffNotBelow(cfg: Config, s: State, steps: seq<Step>, id: TaskId)
    requires cfg.maxEvents >= 1 && Ordered(s, id)
    ensures (forall k :: 0 <= k <= |steps| ==> Ordered(Execute(cfg, s, steps[..k]), id))
      <==> forall k :: 0 <= k < |steps| ==> NotBelow(Execute(cfg, s, steps[..k]), steps[k], id)
  {
    hide Ordered;
    hide NotBelow;
    hide Next;
    forall s', step | Ordered(s', id) ensures Ordered(Next(cfg, s', step), id) <==> NotBelow(s', step, id) {
      StepKeepsOrder(cfg, s', step, id);
    }
    AlwaysIffGuarded(Machine(cfg), s, steps, OrderedNow(id), NotBelowNow(id));
  }

  ghost function OrderedNow(id: TaskId): State -> bool {
    s => Ordered(s, id)
  }

  ghost function NotBelowNow(id: TaskId): (State, Step) -> bool {
    (s: State, step: Step) => NotBelow(s, step, id)
  }

  ghost function TakesOldestNow(id: TaskId): (State, Step) -> bool {
    (s: State, step: Step) => TakesOldest(s, step, id)
  }

  // ---- The exact condition on schedules ----

  /** Calls in flight stand in number order, above everything cached and not above the sequence number. */
  ghost predicate Steady(s: State, id: TaskId) {
    && id in s.log.tasks
    && (forall i, j :: 0 <= i < j < |s.pending| && s.pending[i].id == s.pending[j].id == id ==>
         s.pending[i].event.num < s.pending[j].event.num)
    && (forall i :: 0 <= i < |s.pending| && s.pending[i].id == id ==>
         && Last(s, id) < s.pending[i].event.num <= s.log.tasks[id].lastNum)
    && Last(s, id) <= s.log.tasks[id].lastNum
  }

  /** The last cached number; zero when nothing is cached, which is below every number given out. */
  function Last(s: State, id: TaskId): int {
    var events := EventsOf(s.log, id);
    if events == [] then 0 else events[|events| - 1].num
  }

  /** No call of the task is in flight. */
  predicate Idle(s: State, id: TaskId) {
    forall i :: 0 <= i < |s.pending| ==> s.pending[i].id != id
  }

  lemma LastAfter(cfg: Config, s: State, step: Step, id: TaskId)
    requires cfg.maxEvents >= 1
    ensures Last(Next(cfg, s, step), id) == if Appends(s, step, id) then s.pending[step.call].event.num else Last(s, id)
  {
    hide Next;
    match step
    case Number(other, o) => NumberEffect(cfg, s, other, o, id);
    case Publish(k, now) =>
      PublishNothing(cfg, s, k, now);
      if k < |s.pending| { PublishEffect(cfg, s, k, now, id); }
  }

  lemma OldestKeepsSteady(cfg: Config, s: State, step: Step, id: TaskId)
    requires cfg.maxEvents >= 1 && Steady(s, id) && TakesOldest(s, step, id)
    ensures Steady(Next(cfg, s, step), id) && NotBelow(s, step, id)
  {
    hide Last;
    LastAfter(cfg, s, step, id);
    if Appends(s, step, id) { LastWhenCached(s, id); }
  }

  lemma LastWhenCached(s: State, id: TaskId)
    ensures EventsOf(s.log, id) != [] ==> Last(s, id) == EventsOf(s.log, id)[|EventsOf(s.log, id)| - 1].num
  {
  }

  /** An older call is in flight than what was cached last. */
  ghost predicate Overtaken(s: State, id: TaskId) {
    && EventsOf(s.log, id) != []
    && exists i :: 0 <= i < |s.pending| && s.pending[i].id == id && s.pending[i].event.num < Last(s, id)
  }

  /** A call that a step does not append stays in flight. */
  lemma StaysInFlight(cfg: Config, s: State, step: Step, i: nat) returns (j: nat)
    requires i < |s.pending| && (step.Publish? ==> step.call != i)
    ensures var s' := Next(cfg, s, step); j < |s'.pending| && s'.pending[j] == s.pending[i]
  {
    hide UpdateCache;
    hide Trimmed;
    hide Dropped;
    hide Nums;
    j := if step.Publish? && step.call < i then i - 1 else i;
  }

  lemma StaysCached(cfg: Config, s: State, step: Step, id: TaskId)
    requires EventsOf(s.log, id) != []
    ensures EventsOf(Next(cfg, s, step).log, id) != []
  {
  }

  lemma NotBelowKeepsOvertaken(cfg: Config, s: State, step: Step, id: TaskId)
    requires cfg.maxEvents >= 1 && Overtaken(s, id) && NotBelow(s, step, id)
    ensures Overtaken(Next(cfg, s, step), id)
  {
    hide Last;
    hide Next;
    hide EventsOf;
    var i :| 0 <= i < |s.pending| && s.pending[i].id == id && s.pending[i].event.num < Last(s, id);
    LastAfter(cfg, s, step, id);
    LastWhenCached(s, id);
    StaysCached(cfg, s, step, id);
    if !(step.Publish? && step.call == i) {
      var j := StaysInFlight(cfg, s, step, i);
    }
  }

  /** Once overtaken, a call cannot append in order any more, so the task cannot become idle in order. */
  lemma {:induction false} OvertakenStays(cfg: Config, s: State, steps: seq<Step>, id: TaskId)
    requires cfg.maxEvents >= 1 && Overtaken(s, id) && Guarded(Machine(cfg), s, steps, NotBelowNow(id))
    ensures !Idle(Execute(cfg, s, steps), id)
    decreases |steps|
  {
    hide NotBelow;
    hide Next;
    if steps == [] {
      var i :| 0 <= i < |s.pending| && s.pending[i].id == id && s.pending[i].event.num < Last(s, id);
    } else {
      GuardedFront(Machine(cfg), s, steps, NotBelowNow(id));
      NotBelowKeepsOvertaken(cfg, s, steps[0], id);
      OvertakenStays(cfg, Next(cfg, s, steps[0]), steps[1..], id);
    }
  }

  /** An append that passes an older call by leaves it overtaken. */
  lemma PassingOvertakes(cfg: Config, s: State, step: Step, id: TaskId)
    requires cfg.maxEvents >= 1 && Steady(s, id) && !TakesOldest(s, step, id)
    ensures Overtaken(Next(cfg, s, step), id)
  {
    hide Last;
    LastAfter(cfg, s, step, id);
    var j :| 0 <= j < step.call && s.pending[j].id == id;
    assert Next(cfg, s, step).pending[j] == s.pending[j];
  }

  /** A schedule that completes: no append goes below the last cached number exactly when each takes the task's oldest
      call in flight. */
  lemma {:induction false} CompleteIffOldest(cfg: Config, s: State, steps: seq<Step>, id: TaskId)
    requires cfg.maxEvents >= 1 && Steady(s, id) && Idle(Execute(cfg, s, steps), id)
    ensures Guarded(Machine(cfg), s, steps, NotBelowNow(id)) <==> Guarded(Machine(cfg), s, steps, TakesOldestNow(id))
    decreases |steps|
  {
    hide NotBelow;
    hide TakesOldest;
    hide Steady;
    hide Overtaken;
    hide Idle;
    hide Next;
    if steps != [] {
      GuardedFront(Machine(cfg), s, steps, NotBelowNow(id));
      GuardedFront(Machine(cfg), s, steps, TakesOldestNow(id));
      var s', rest := Next(cfg, s, steps[0]), steps[1..];
      if TakesOldest(s, steps[0], id) {
        OldestKeepsSteady(cfg, s, steps[0], id);
        CompleteIffOldest(cfg, s', rest, id);
      } else {
        PassingOvertakes(cfg, s, steps[0], id);
        if Guarded(Machine(cfg), s', rest, NotBelowNow(id)) { OvertakenStays(cfg, s', rest, id); }
      }
    }
  }

  /** Every schedule that completes the calls of a task: its cache stays in number order throughout exactly when every
      append takes the task's oldest call in flight. */
  lemma OrderedThroughoutIffOldest(cfg: Config, s: State, steps: seq<Step>, id: TaskId)
    requires cfg.maxEvents >= 1 && Ordered(s, id) && Steady(s, id) && Idle(Execute(cfg, s, steps), id)
    ensures (forall k :: 0 <= k <= |steps| ==> Ordered(Execute(cfg, s, steps[..k]), id))
      <==> forall k :: 0 <= k < |steps| ==> TakesOldest(Execute(cfg, s, steps[..k]), steps[k], id)
  {
    hide Ordered;
    hide NotBelow;
    hide TakesOldest;
    hide Steady;
    hide Idle;
    OrderedThroughoutIffNotBelow(cfg, s, steps, id);
    CompleteIffOldest(cfg, s, steps, id);
  }

  /** A task that is known and has no call in flight may start such a schedule. */
  lemma IdleIsSteady(s: State, id: TaskId)
    requires id in s.log.tasks && Idle(s, id) && Last(s, id) <= s.log.tasks[id].lastNum
    ensures Steady(s, id)
  {
  }

  // ---- What goes wrong otherwise ----

  /** Two further outputs of any known task can end up cached in reverse, whatever is cached or in flight: the second
      call appends first, and a reader that has the first event is told there is nothing new. */
  lemma OutOfOrderPublishing(cfg: Config, s: State, id: TaskId, a: Output, b: Output)
    requires id in s.log.tasks && cfg.maxEvents >= 1
    ensures var n := |s.pending|;
      var num := s.log.tasks[id].lastNum + 1;
      var s' := Execute(cfg, s, [Number(id, a), Number(id, b), Publish(n + 1, b.now), Publish(n, a.now)]);
      var events := EventsOf(s'.log, id);
      && s'.pending == s.pending
      && |events| >= 2 && events[|events| - 2].num == num + 1 && events[|events| - 1].num == num
      && ReadEvents(events, num).None? && Newer(events, num) != []
  {
    hide Next;
    RunFour(Machine(cfg), s, Number(id, a), Number(id, b), Publish(|s.pending| + 1, b.now), Publish(|s.pending|, a.now));
    Reversed(cfg, s, id, a, b);
    var num := s.log.tasks[id].lastNum + 1;
    var events := EventsOf(s.log, id);
    var ea, eb := Event(num, a.kind, a.ms, a.data), Event(num + 1, b.kind, b.ms, b.data);
    TwoWindows(cfg.maxEvents, events, eb, ea);
    var after := Window(cfg.maxEvents, Window(cfg.maxEvents, events, eb), ea);
    NewerHas(after, num, |after| - 2);
  }

  /** The state those four steps lead to. */
  lemma Reversed(cfg: Config, s: State, id: TaskId, a: Output, b: Output)
    requires id in s.log.tasks
    ensures var n, num := |s.pending|, s.log.tasks[id].lastNum + 1;
      var ea, eb := Event(num, a.kind, a.ms, a.data), Event(num + 1, b.kind, b.ms, b.data);
      var s' := Next(cfg, Next(cfg, Next(cfg, Next(cfg, s, Number(id, a)), Number(id, b)),
        Publish(n + 1, b.now)), Publish(n, a.now));
      && s'.pending == s.pending
      && EventsOf(s'.log, id) == Window(cfg.maxEvents, Window(cfg.maxEvents, EventsOf(s.log, id), eb), ea)
  {
    hide Next;
    hide EventsOf;
    hide Window;
    hide PendingNums;
    hide Trimmed;
    var n, num := |s.pending|, s.log.tasks[id].lastNum + 1;
    var ea, eb := Event(num, a.kind, a.ms, a.data), Event(num + 1, b.kind, b.ms, b.data);
    var s1 := Next(cfg, s, Number(id, a));
    var s2 := Next(cfg, s1, Number(id, b));
    var s3 := Next(cfg, s2, Publish(n + 1, b.now));
    NumberEffect(cfg, s, id, a, id);
    NumberEffect(cfg, s1, id, b, id);
    assert s2.pending == s.pending + [Pending(id, ea), Pending(id, eb)];
    PublishEffect(cfg, s2, n + 1, b.now, id);
    assert s3.pending == s.pending + [Pending(id, ea)];
    PublishEffect(cfg, s3, n, a.now, id);
  }

  lemma TwoWindows(m: nat, events: seq<Event>, first: Event, second: Event)
    requires m >= 1
    ensures var w := Window(m, Window(m, events, first), second);
      |w| >= 2 && w[|w| - 2] == first && w[|w| - 1] == second
  {
  }

  lemma {:induction false} NewerHas(events: seq<Event>, fromSeq: int, i: nat)
    requires i < |events| && events[i].num > fromSeq
    ensures Newer(events, fromSeq) != []
  {
    if i > 0 { NewerHas(events[1..], fromSeq, i - 1); }
  }
}
