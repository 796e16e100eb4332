/** Concurrent outputs: taking a number and appending to the cache are separate lock-protected steps, so any
    number of calls may stand between the two. */
module ConcurrentLog {
  import opened Json
  import opened EventLog
  import opened Recovery
  import opened Runs

  /** A call that has its number and has not appended yet. */
  datatype Pending = Pending(id: TaskId, event: Event)

  /** The log, the calls in flight, and (for the proof only) the numbers that left each task's window. */
  datatype State = State(log: Log, pending: seq<Pending>, trimmed: map<TaskId, seq<int>>)

  datatype Step =
    | Number(id: TaskId, output: Output)
    | Publish(call: nat, now: int)

  function Trimmed(s: State, id: TaskId): seq<int> {
    if id in s.trimmed then s.trimmed[id] else []
  }

  function Nums(events: seq<Event>): (nums: seq<int>)
    ensures |nums| == |events| && forall i :: 0 <= i < |events| ==> nums[i] == events[i].num
  {
    if events == [] then [] else [events[0].num] + Nums(events[1..])
  }

  function PendingNums(pending: seq<Pending>, id: TaskId): seq<int> {
    if pending == [] then []
    else (if pending[0].id == id then [pending[0].event.num] else []) + PendingNums(pending[1..], id)
  }

  /** The events a full window loses before the next append. */
  function Dropped(cfg: Config, events: seq<Event>): seq<Event> {
    events[..|events| - |LastN(events, cfg.maxEvents)|]
  }

  function Next(cfg: Config, s: State, step: Step): State {
    match step
    case Number(id, o) =>
      var (log, n) := NextSeq(s.log, id, o.ms);
      if n.None? then s else s.(log := log, pending := s.pending + [Pending(id, Event(n.value, o.kind, o.ms, o.data))])
    case Publish(k, now) =>
      if k >= |s.pending| then s
      else
        var p := s.pending[k];
        State(UpdateCache(cfg, s.log, p.id, p.event, now), s.pending[..k] + s.pending[k + 1..],
              s.trimmed[p.id := Trimmed(s, p.id) + Nums(Dropped(cfg, EventsOf(s.log, p.id)))])
  }

  function Machine(cfg: Config): (State, Step) -> State {
    (s: State, step: Step) => Next(cfg, s, step)
  }

  function Execute(cfg: Config, s: State, steps: seq<Step>): State {
    Run(Machine(cfg), s, steps)
  }

  function OneTo(n: int): (nums: seq<int>)
    ensures n >= 0 ==> |nums| == n && forall i :: 0 <= i < n ==> nums[i] == i + 1
  {
    if n <= 0 then [] else OneTo(n - 1) + [n]
  }

  /** Every number of a task, wherever it is now. */
  function AllNums(s: State, id: TaskId): seq<int> {
    PendingNums(s.pending, id) + Nums(EventsOf(s.log, id)) + Trimmed(s, id)
  }

  /** The numbers in flight, cached and trimmed are together exactly 1 to the sequence number, each once. */
  ghost predicate Accounted(s: State, id: TaskId) {
    if id in s.log.tasks then
      var last := s.log.tasks[id].lastNum;
      last >= 0 && multiset(AllNums(s, id)) == multiset(OneTo(last))
    else PendingNums(s.pending, id) == []
  }

  lemma {:induction false} NumsAppend(a: seq<Event>, b: seq<Event>)
    ensures Nums(a + b) == Nums(a) + Nums(b)
  {
  }

  lemma {:induction false} PendingAppend(a: seq<Pending>, b: seq<Pending>, id: TaskId)
    ensures PendingNums(a + b, id) == PendingNums(a, id) + PendingNums(b, id)
  {
    if a == [] {
      assert a + b == b;
    } else {
      assert (a + b)[1..] == a[1..] + b;
      PendingAppend(a[1..], b, id);
      var mine := if a[0].id == id then [a[0].event.num] else [];
      assert mine + (PendingNums(a[1..], id) + PendingNums(b, id)) == mine + PendingNums(a[1..], id) + PendingNums(b, id);
    }
  }

  lemma PendingAt(pending: seq<Pending>, k: nat, id: TaskId)
    requires k < |pending|
    ensures var mine := if pending[k].id == id then [pending[k].event.num] else [];
      && PendingNums(pending, id) == PendingNums(pending[..k], id) + mine + PendingNums(pending[k + 1..], id)
      && PendingNums(pending[..k] + pending[k + 1..], id)
         == PendingNums(pending[..k], id) + PendingNums(pending[k + 1..], id)
  {
    assert pending == pending[..k] + ([pending[k]] + pending[k + 1..]);
    PendingAppend(pending[..k], [pending[k]] + pending[k + 1..], id);
    PendingAppend([pending[k]], pending[k + 1..], id);
    PendingAppend(pending[..k], pending[k + 1..], id);
    assert [pending[k]][1..] == [];
  }

  lemma OneMorePending(pending: seq<Pending>, p: Pending, id: TaskId)
    ensures p.id == id ==> PendingNums(pending + [p], id) == PendingNums(pending, id) + [p.event.num]
    ensures p.id != id ==> PendingNums(pending + [p], id) == PendingNums(pending, id)
  {
    PendingAppend(pending, [p], id);
    assert [p][1..] == [];
    assert PendingNums(pending, id) + [] == PendingNums(pending, id);
  }

  /** Taking a number adds the next one to the calls in flight. */
  lemma NumberEffect(cfg: Config, s: State, id: TaskId, o: Output, other: TaskId)
    ensures var s' := Next(cfg, s, Number(id, o));
      && EventsOf(s'.log, other) == EventsOf(s.log, other) && Trimmed(s', other) == Trimmed(s, other)
      && (other in s'.log.tasks <==> other in s.log.tasks)
      && (if other == id && id in s.log.tasks then
            var n := s.log.tasks[id].lastNum + 1;
            && s'.log.tasks[id].lastNum == n
            && s'.pending == s.pending + [Pending(id, Event(n, o.kind, o.ms, o.data))]
            && PendingNums(s'.pending, id) == PendingNums(s.pending, id) + [n]
          else
            && PendingNums(s'.pending, other) == PendingNums(s.pending, other)
            && (other in s.log.tasks ==> s'.log.tasks[other].lastNum == s.log.tasks[other].lastNum))
  {
    hide PendingNums;
    if id in s.log.tasks {
      var p := Pending(id, Event(s.log.tasks[id].lastNum + 1, o.kind, o.ms, o.data));
      OneMorePending(s.pending, p, other);
    }
  }

  lemma NumberAccounts(cfg: Config, s: State, id: TaskId, o: Output, other: TaskId)
    requires Accounted(s, other)
    ensures Accounted(Next(cfg, s, Number(id, o)), other)
  {
    hide Next;
    hide Nums;
    hide PendingNums;
    hide EventsOf;
    hide Trimmed;
    hide OneTo;
    if id in s.log.tasks { OneToNext(s.log.tasks[id].lastNum); }
    NumberEffect(cfg, s, id, o, other);
    if id == other && id in s.log.tasks {
      MoveAcross(PendingNums(s.pending, id), [s.log.tasks[id].lastNum + 1], Nums(EventsOf(s.log, id)), Trimmed(s, id));
    }
  }

  lemma OneToNext(n: int)
    ensures n >= 0 ==> OneTo(n + 1) == OneTo(n) + [n + 1]
  {
  }

  lemma MoveAcross<T>(a: seq<T>, b: seq<T>, c: seq<T>, d: seq<T>)
    ensures multiset(a + b + c + d) == multiset(a + c + d) + multiset(b)
  {
  }

  /** Appending moves a number from flight into the window, and what the window drops into the trimmed ones. */
  lemma PublishEffect(cfg: Config, s: State, k: nat, now: int, other: TaskId)
    requires k < |s.pending|
    ensures var s', p := Next(cfg, s, Publish(k, now)), s.pending[k];
      && s'.log.tasks == s.log.tasks
      && s'.pending == s.pending[..k] + s.pending[k + 1..]
      && (if other == p.id then
            && EventsOf(s'.log, other) == Window(cfg.maxEvents, EventsOf(s.log, other), p.event)
            && Trimmed(s', other) == Trimmed(s, other) + Nums(Dropped(cfg, EventsOf(s.log, other)))
          else EventsOf(s'.log, other) == EventsOf(s.log, other) && Trimmed(s', other) == Trimmed(s, other))
  {
  }

  lemma PublishNothing(cfg: Config, s: State, k: nat, now: int)
    ensures k >= |s.pending| ==> Next(cfg, s, Publish(k, now)) == s
  {
  }

  lemma WindowNums(cfg: Config, events: seq<Event>, e: Event)
    ensures Nums(events) == Nums(Dropped(cfg, events)) + Nums(LastN(events, cfg.maxEvents))
    ensures Nums(Window(cfg.maxEvents, events, e)) == Nums(LastN(events, cfg.maxEvents)) + [e.num]
  {
    var kept := LastN(events, cfg.maxEvents);
    assert events == Dropped(cfg, events) + kept;
    NumsAppend(Dropped(cfg, events), kept);
    NumsAppend(kept, [e]);
    assert Nums([e]) == [e.num];
  }

  lemma PublishAccounts(cfg: Config, s: State, k: nat, now: int, other: TaskId)
    requires Accounted(s, other)
    ensures Accounted(Next(cfg, s, Publish(k, now)), other)
  {
    hide Next;
    hide Nums;
    hide PendingNums;
    hide EventsOf;
    hide Trimmed;
    hide OneTo;
    hide Window;
    hide Dropped;
    hide LastN;
    PublishNothing(cfg, s, k, now);
    if k < |s.pending| {
      var p, events := s.pending[k], EventsOf(s.log, other);
      PublishEffect(cfg, s, k, now, other);
      PendingAt(s.pending, k, other);
      if other == p.id {
        WindowNums(cfg, events, p.event);
        Reshuffle(PendingNums(s.pending[..k], other), [p.event.num], PendingNums(s.pending[k + 1..], other),
                  Nums(Dropped(cfg, events)), Nums(LastN(events, cfg.maxEvents)), Trimmed(s, other));
      }
    }
  }

  lemma Reshuffle<T>(l: seq<T>, x: seq<T>, r: seq<T>, d: seq<T>, kept: seq<T>, t: seq<T>)
    ensures multiset(l + x + r + (d + kept) + t) == multiset(l + r + (kept + x) + (t + d))
  {
  }

  /** Under every interleaving of outputs of any tasks, no number is given twice and none is lost. */
  lemma EveryScheduleAccounts(cfg: Config, s: State, steps: seq<Step>, id: TaskId)
    requires s.pending == [] && s.trimmed == map[] && EventsOf(s.log, id) == []
    requires id in s.log.tasks ==> s.log.tasks[id].lastNum == 0
    ensures Accounted(Execute(cfg, s, steps), id)
  {
    hide Next;
    hide Accounted;
    NothingToAccount(s, id);
    ExecuteKeepsAccount(cfg, s, steps, id);
  }

  lemma {:induction false} ExecuteKeepsAccount(cfg: Config, s: State, steps: seq<Step>, id: TaskId)
    requires Accounted(s, id)
    ensures Accounted(Execute(cfg, s, steps), id)
    decreases |steps|
  {
    hide Next;
    hide Accounted;
    if steps != [] {
      match steps[0] {
        case Number(other, o) => NumberAccounts(cfg, s, other, o, id);
        case Publish(k, now) => PublishAccounts(cfg, s, k, now, id);
      }
      ExecuteKeepsAccount(cfg, Next(cfg, s, steps[0]), steps[1..], id);
    }
  }

  lemma NothingToAccount(s: State, id: TaskId)
    requires s.pending == [] && s.trimmed == map[] && EventsOf(s.log, id) == []
    requires id in s.log.tasks ==> s.log.tasks[id].lastNum == 0
    ensures Accounted(s, id)
  {
  }

  /** What the accounting means: the numbers are pairwise different, and exactly those from 1 to the sequence number. */
  lemma AccountedNumbersAreDistinct(s: State, id: TaskId)
    requires id in s.log.tasks && Accounted(s, id)
    ensures var all := AllNums(s, id);
      && (forall i, j :: 0 <= i < j < |all| ==> all[i] != all[j])
      && (forall n :: n in all <==> 1 <= n <= s.log.tasks[id].lastNum)
  {
    hide AllNums;
    hide OneTo;
    var all, last := AllNums(s, id), s.log.tasks[id].lastNum;
    forall n ensures n in all <==> 1 <= n <= last {
      assert n in all <==> n in multiset(all);
      InOneTo(last, n);
    }
    forall i, j | 0 <= i < j < |all| ensures all[i] != all[j] {
      if all[i] == all[j] {
        Twice(all, i, j);
        OnceEach(last, all[i]);
      }
    }
  }

  lemma InOneTo(last: nat, n: int)
    ensures n in multiset(OneTo(last)) <==> 1 <= n <= last
  {
    assert n in OneTo(last) <==> n in multiset(OneTo(last));
    if 1 <= n <= last { assert OneTo(last)[n - 1] == n; }
  }

  lemma Twice(nums: seq<int>, i: nat, j: nat)
    requires i < j < |nums| && nums[i] == nums[j]
    ensures multiset(nums)[nums[i]] >= 2
  {
    assert nums == nums[..j] + [nums[j]] + nums[j + 1..];
    assert nums[..j][i] == nums[i];
    assert nums[i] in multiset(nums[..j]);
  }

  lemma {:induction false} OnceEach(n: nat, x: int)
    ensures multiset(OneTo(n))[x] <= 1
  {
    hide OneTo;
    if n > 0 {
      OnceEach(n - 1, x);
      OneToNext(n - 1);
      assert multiset(OneTo(n)) == multiset(OneTo(n - 1)) + multiset{n};
      InOneTo(n - 1, n);
    } else {
      InOneTo(n, x);
    }
  }
}
