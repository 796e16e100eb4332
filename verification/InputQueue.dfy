/** The bounded input queue: senders that start a processor with a compare-and-swap, processors that take and deliver
    inputs, and cancels that drain the queue and clear the started flag. Each channel or atomic operation is a step. */
module InputQueue {
  import opened Runs

  const CAPACITY: nat := 100

  type Input = string

  /** How an accepted input left the queue; it was the n-th to be accepted. */
  datatype Removal = Taken(processor: nat, n: nat, input: Input) | Drained(cancel: nat, n: nat, input: Input)

  datatype Sender = Queued | Finished | Refused

  datatype Processor = Idle | Holding(taken: Removal)

  datatype Cancel = Draining | Loading | Storing | Stored | Skipped

  /** The channel, the flag and the counter; every sender, processor and cancel so far; and what happened: the inputs
      accepted, the removals from the queue and the deliveries to the CLI, each in order. */
  datatype State = State(
    queue: seq<Input>, started: bool, dropped: nat,
    senders: seq<Sender>, processors: seq<Processor>, cancels: seq<Cancel>,
    accepted: seq<Input>, removed: seq<Removal>, delivered: seq<Removal>)

  datatype Step =
    | Send(input: Input)
    | TryStart(sender: nat)
    | Take(processor: nat)
    | Deliver(processor: nat)
    | BeginCancel
    | Drain(cancel: nat)
    | LoadStarted(cancel: nat)
    | StoreFalse(cancel: nat)

  const INIT: State := State([], false, 0, [], [], [], [], [], [])

  /** One step; a step that its thread is not ready for changes nothing. Without an adapter no processor starts. */
  function Next(adapter: bool, s: State, step: Step): State {
    match step
    case Send(input) =>
      if |s.queue| < CAPACITY then
        s.(queue := s.queue + [input], accepted := s.accepted + [input], senders := s.senders + [Queued])
      else s.(dropped := s.dropped + 1, senders := s.senders + [Refused])
    case TryStart(k) =>
      if k >= |s.senders| || s.senders[k] != Queued then s
      else if adapter && !s.started then
        s.(senders := s.senders[k := Finished], started := true, processors := s.processors + [Idle])
      else s.(senders := s.senders[k := Finished])
    case Take(p) =>
      if p >= |s.processors| || s.processors[p] != Idle || s.queue == [] then s
      else
        var taken := Taken(p, |s.removed|, s.queue[0]);
        s.(processors := s.processors[p := Holding(taken)], queue := s.queue[1..], removed := s.removed + [taken])
    case Deliver(p) =>
      if p >= |s.processors| || s.processors[p] == Idle then s
      else
        s.(processors := s.processors[p := Idle], delivered := s.delivered + [s.processors[p].taken])
    case BeginCancel => s.(cancels := s.cancels + [Draining])
    case Drain(c) =>
      if c >= |s.cancels| || s.cancels[c] != Draining then s
      else if s.queue == [] then s.(cancels := s.cancels[c := Loading])
      else s.(queue := s.queue[1..], removed := s.removed + [Drained(c, |s.removed|, s.queue[0])])
    case LoadStarted(c) =>
      if c >= |s.cancels| || s.cancels[c] != Loading then s
      else s.(cancels := s.cancels[c := if s.started then Storing else Skipped])
    case StoreFalse(c) =>
      if c >= |s.cancels| || s.cancels[c] != Storing then s
      else s.(cancels := s.cancels[c := Stored], started := false)
  }

  function Machine(adapter: bool): (State, Step) -> State {
    (s: State, step: Step) => Next(adapter, s, step)
  }

  function Execute(adapter: bool, s: State, steps: seq<Step>): State {
    Run(Machine(adapter), s, steps)
  }

  lemma ExecuteAppend(adapter: bool, s: State, a: seq<Step>, b: seq<Step>)
    ensures Execute(adapter, s, a + b) == Execute(adapter, Execute(adapter, s, a), b)
  {
    RunAppend(Machine(adapter), s, a, b);
  }

  lemma TwoSteps(adapter: bool, s: State, a: Step, b: Step)
    ensures Execute(adapter, s, [a]) == Next(adapter, s, a)
    ensures Execute(adapter, s, [a, b]) == Next(adapter, Next(adapter, s, a), b)
  {
    RunOne(Machine(adapter), s, a);
    RunTwo(Machine(adapter), s, a, b);
  }

  // ---- Where every input is ----

  function Inputs(removed: seq<Removal>): seq<Input> {
    if removed == [] then [] else Inputs(removed[..|removed| - 1]) + [removed[|removed| - 1].input]
  }

  /** What one processor took. */
  function TakenBy(removed: seq<Removal>, p: nat): seq<Removal> {
    if removed == [] then []
    else
      var last := removed[|removed| - 1];
      TakenBy(removed[..|removed| - 1], p) + (if last.Taken? && last.processor == p then [last] else [])
  }

  function Held(s: State, p: nat): seq<Removal> {
    if p < |s.processors| && s.processors[p].Holding? then [s.processors[p].taken] else []
  }

  function CountStored(cancels: seq<Cancel>): nat {
    if cancels == [] then 0 else (if cancels[0] == Stored then 1 else 0) + CountStored(cancels[1..])
  }

  lemma Appended(removed: seq<Removal>, r: Removal)
    ensures Inputs(removed + [r]) == Inputs(removed) + [r.input]
    ensures forall p: nat ::
      TakenBy(removed + [r], p) == TakenBy(removed, p) + (if r.Taken? && r.processor == p then [r] else [])
  {
    assert (removed + [r])[..|removed|] == removed;
  }

  lemma {:induction false} StoredChanges(cancels: seq<Cancel>, c: nat, after: Cancel)
    requires c < |cancels| && cancels[c] != Stored
    ensures CountStored(cancels[c := after]) == CountStored(cancels) + (if after == Stored then 1 else 0)
  {
    if c == 0 {
      assert cancels[c := after][1..] == cancels[1..];
    } else {
      StoredChanges(cancels[1..], c - 1, after);
      assert cancels[c := after][1..] == cancels[1..][c - 1 := after];
    }
  }

  lemma {:induction false} OneMoreCancel(cancels: seq<Cancel>)
    ensures CountStored(cancels + [Draining]) == CountStored(cancels)
  {
    if cancels != [] {
      OneMoreCancel(cancels[1..]);
      assert (cancels + [Draining])[1..] == cancels[1..] + [Draining];
    }
  }

  lemma {:induction false} StoredAtMostAll(cancels: seq<Cancel>)
    ensures CountStored(cancels) <= |cancels|
  {
    if cancels != [] { StoredAtMostAll(cancels[1..]); }
  }

  // ---- What every step keeps ----

  /** Accepted inputs leave in the order they came, each once, and no more than the capacity wait; every call was
      accepted or counted as dropped. */
  ghost predicate Conserved(s: State) {
    && s.accepted == Inputs(s.removed) + s.queue
    && |s.queue| <= CAPACITY
    && |s.senders| == |s.accepted| + s.dropped
  }

  /** Each start of a processor is paid for by the cancel that cleared the flag, except the first. */
  ghost predicate StartsBounded(s: State) {
    |s.processors| <= CountStored(s.cancels) + (if s.started then 1 else 0)
  }

  /** A sender that is through leaves a processor running. */
  ghost predicate Served(adapter: bool, s: State) {
    && (s.started ==> |s.processors| >= 1)
    && (adapter && Finished in s.senders ==> |s.processors| >= 1)
  }

  /** A processor delivers what it took, in that order, up to the input it holds. */
  ghost predicate InHand(s: State, p: nat) {
    TakenBy(s.removed, p) == TakenBy(s.delivered, p) + Held(s, p)
  }

  /** Removals and deliveries are the work of processors and cancels that exist; the n-th removal is the n-th input. */
  ghost predicate Owned(s: State) {
    && Positioned(s.removed)
    && (forall p :: 0 <= p < |s.processors| && s.processors[p].Holding? ==>
      s.processors[p].taken.Taken? && s.processors[p].taken.processor == p)
    && (forall r :: r in s.removed ==> if r.Taken? then r.processor < |s.processors| else r.cancel < |s.cancels|)
    && (forall r :: r in s.delivered ==> r.Taken? && r.processor < |s.processors|)
  }

  ghost predicate Positioned(removed: seq<Removal>) {
    forall i :: 0 <= i < |removed| ==> removed[i].n == i
  }

  lemma FrontMoves(accepted: seq<Input>, removed: seq<Removal>, queue: seq<Input>, r: Removal)
    requires accepted == Inputs(removed) + queue && queue != [] && r.input == queue[0]
    ensures accepted == Inputs(removed + [r]) + queue[1..]
  {
    Appended(removed, r);
    assert [queue[0]] + queue[1..] == queue;
  }

  lemma NextConserves(adapter: bool, s: State, step: Step)
    requires Conserved(s)
    ensures Conserved(Next(adapter, s, step))
  {
    hide Inputs;
    match step
    case Send(input) => assert Inputs(s.removed) + (s.queue + [input]) == Inputs(s.removed) + s.queue + [input];
    case Take(p) => if s.queue != [] { FrontMoves(s.accepted, s.removed, s.queue, Taken(p, |s.removed|, s.queue[0])); }
    case Drain(c) =>
      if s.queue != [] { FrontMoves(s.accepted, s.removed, s.queue, Drained(c, |s.removed|, s.queue[0])); }
    case _ =>
  }

  lemma NextBoundsStarts(adapter: bool, s: State, step: Step)
    requires StartsBounded(s)
    ensures StartsBounded(Next(adapter, s, step))
  {
    match step
    case BeginCancel => OneMoreCancel(s.cancels);
    case Drain(c) => if c < |s.cancels| && s.cancels[c] == Draining { StoredChanges(s.cancels, c, Loading); }
    case LoadStarted(c) =>
      if c < |s.cancels| && s.cancels[c] == Loading {
        StoredChanges(s.cancels, c, if s.started then Storing else Skipped);
      }
    case StoreFalse(c) => if c < |s.cancels| && s.cancels[c] == Storing { StoredChanges(s.cancels, c, Stored); }
    case _ =>
  }

  lemma NextServes(adapter: bool, s: State, step: Step)
    requires Served(adapter, s)
    ensures Served(adapter, Next(adapter, s, step))
  {
  }

  lemma TakeKeepsInHand(s: State, q: nat, p: nat)
    requires InHand(s, p) && s.queue != []
    ensures InHand(Next(true, s, Take(q)), p)
  {
    hide TakenBy;
    var x := Taken(q, |s.removed|, s.queue[0]);
    Appended(s.removed, x);
    assert TakenBy(s.delivered, p) + [] + [x] == TakenBy(s.delivered, p) + [x];
    assert TakenBy(s.removed, p) + [] == TakenBy(s.removed, p);
  }

  lemma DeliverKeepsInHand(s: State, q: nat, p: nat)
    requires InHand(s, p) && q < |s.processors| && s.processors[q].Holding?
    requires s.processors[q].taken.Taken? && s.processors[q].taken.processor == q
    ensures InHand(Next(true, s, Deliver(q)), p)
  {
    hide TakenBy;
    var x := s.processors[q].taken;
    Appended(s.delivered, x);
    assert TakenBy(s.delivered, p) + [x] + [] == TakenBy(s.delivered, p) + [x];
    assert TakenBy(s.delivered, p) + [] == TakenBy(s.delivered, p);
  }

  lemma DrainKeepsInHand(s: State, c: nat, p: nat)
    requires InHand(s, p) && s.queue != []
    ensures InHand(Next(true, s, Drain(c)), p)
  {
    hide TakenBy;
    Appended(s.removed, Drained(c, |s.removed|, s.queue[0]));
    assert TakenBy(s.removed, p) + [] == TakenBy(s.removed, p);
  }

  lemma NextKeepsInHand(adapter: bool, s: State, step: Step, p: nat)
    requires InHand(s, p) && Owned(s)
    ensures InHand(Next(adapter, s, step), p)
  {
    hide TakenBy;
    match step
    case Take(q) => if s.queue != [] { TakeKeepsInHand(s, q, p); }
    case Drain(c) => if s.queue != [] { DrainKeepsInHand(s, c, p); }
    case Deliver(q) => if q < |s.processors| && s.processors[q].Holding? { DeliverKeepsInHand(s, q, p); }
    case _ =>
  }

  lemma NextKeepsOwned(adapter: bool, s: State, step: Step)
    requires Owned(s)
    ensures Owned(Next(adapter, s, step))
  {
  }

  ghost predicate Inv(adapter: bool, s: State) {
    Conserved(s) && StartsBounded(s) && Served(adapter, s) && Owned(s) && forall p: nat :: InHand(s, p)
  }

  lemma {:induction false} ExecuteKeepsInv(adapter: bool, s: State, steps: seq<Step>)
    requires Inv(adapter, s)
    ensures Inv(adapter, Execute(adapter, s, steps))
    decreases |steps|
  {
    hide Conserved;
    hide StartsBounded;
    hide Served;
    hide Owned;
    hide InHand;
    hide Next;
    if steps != [] {
      NextConserves(adapter, s, steps[0]);
      NextBoundsStarts(adapter, s, steps[0]);
      NextServes(adapter, s, steps[0]);
      NextKeepsOwned(adapter, s, steps[0]);
      forall p: nat ensures InHand(Next(adapter, s, steps[0]), p) {
        NextKeepsInHand(adapter, s, steps[0], p);
      }
      ExecuteKeepsInv(adapter, Next(adapter, s, steps[0]), steps[1..]);
    }
  }

  lemma ReachableInv(adapter: bool, steps: seq<Step>)
    ensures Inv(adapter, Execute(adapter, INIT, steps))
  {
    ExecuteKeepsInv(adapter, INIT, steps);
  }

  /** Every interleaving: the accepted inputs are, in order, those removed and those waiting; no more than the
      capacity wait; each call was accepted or counted once; processors never outnumber the cancels by more than one;
      an accepted input always has a processor once its sender is through; and what is delivered was accepted. */
  lemma EveryInterleaving(adapter: bool, steps: seq<Step>)
    ensures var s := Execute(adapter, INIT, steps);
      && s.accepted == Inputs(s.removed) + s.queue && |s.queue| <= CAPACITY
      && |s.senders| == |s.accepted| + s.dropped
      && |s.processors| <= 1 + |s.cancels|
      && (adapter && Finished in s.senders ==> |s.processors| >= 1)
      && (forall p: nat :: InHand(s, p))
      && (forall r :: r in s.delivered ==> r.n < |s.accepted| && s.accepted[r.n] == r.input)
  {
    hide Execute;
    ReachableInv(adapter, steps);
    var s := Execute(adapter, INIT, steps);
    StoredAtMostAll(s.cancels);
    forall r | r in s.delivered ensures r.n < |s.accepted| && s.accepted[r.n] == r.input {
      DeliveredWasRemoved(s, r);
    }
  }

  lemma DeliveredWasRemoved(s: State, r: Removal)
    requires Owned(s) && r in s.delivered && InHand(s, r.processor) && s.accepted == Inputs(s.removed) + s.queue
    ensures r.n < |s.accepted| && s.accepted[r.n] == r.input
  {
    TakenByHolds(s.delivered, r.processor);
    TakenByHolds(s.removed, r.processor);
    assert r in TakenBy(s.removed, r.processor);
    InputsAt(s.removed);
  }

  lemma {:induction false} TakenByHolds(removed: seq<Removal>, p: nat)
    ensures forall r :: r in TakenBy(removed, p) <==> r in removed && r.Taken? && r.processor == p
  {
    if removed != [] {
      var n := |removed| - 1;
      assert removed == removed[..n] + [removed[n]];
      TakenByHolds(removed[..n], p);
    }
  }

  lemma {:induction false} InputsAt(removed: seq<Removal>)
    ensures |Inputs(removed)| == |removed|
    ensures forall i :: 0 <= i < |removed| ==> Inputs(removed)[i] == removed[i].input
  {
    if removed != [] { InputsAt(removed[..|removed| - 1]); }
  }

  // ---- Order ----

  /** In the order of acceptance. */
  ghost predicate InOrder(removed: seq<Removal>) {
    forall i, j :: 0 <= i < j < |removed| ==> removed[i].n < removed[j].n
  }

  lemma {:induction false} OneTakesAll(removed: seq<Removal>)
    requires forall r :: r in removed ==> r.Taken? && r.processor == 0
    ensures TakenBy(removed, 0) == removed
  {
    if removed != [] {
      var n := |removed| - 1;
      assert removed == removed[..n] + [removed[n]];
      OneTakesAll(removed[..n]);
    }
  }

  lemma {:induction false} TakenByInOrder(removed: seq<Removal>, p: nat)
    requires Positioned(removed)
    ensures InOrder(TakenBy(removed, p))
  {
    if removed != [] {
      var n := |removed| - 1;
      TakenByInOrder(removed[..n], p);
      TakenByHolds(removed[..n], p);
    }
  }

  /** Whatever the cancels, each processor delivers in the order of acceptance, and so does the whole server as long as
      it has started no second processor. */
  lemma OneProcessorKeepsOrder(adapter: bool, steps: seq<Step>)
    ensures var s := Execute(adapter, INIT, steps);
      && (forall p: nat :: InOrder(TakenBy(s.delivered, p)))
      && (|s.processors| <= 1 ==> InOrder(s.delivered))
  {
    hide Execute;
    hide TakenBy;
    ReachableInv(adapter, steps);
    var s := Execute(adapter, INIT, steps);
    forall p: nat ensures InOrder(TakenBy(s.delivered, p)) {
      assert InHand(s, p);
      TakenByInOrder(s.removed, p);
      var all, mine := TakenBy(s.removed, p), TakenBy(s.delivered, p);
      assert forall i :: 0 <= i < |mine| ==> all[i] == mine[i];
    }
    if |s.processors| <= 1 { OneTakesAll(s.delivered); }
  }

  /** With no cancel one processor delivers every accepted input in the order of acceptance: what is delivered, then
      the input in hand, then those waiting, is the sequence accepted. */
  lemma NoCancelKeepsOrder(adapter: bool, steps: seq<Step>)
    requires Execute(adapter, INIT, steps).cancels == []
    ensures var s := Execute(adapter, INIT, steps);
      && |s.processors| <= 1
      && s.accepted == Inputs(s.delivered + Held(s, 0)) + s.queue
  {
    hide Execute;
    hide Inputs;
    hide TakenBy;
    ReachableInv(adapter, steps);
    var s := Execute(adapter, INIT, steps);
    assert InHand(s, 0);
    OneTakesAll(s.removed);
    OneTakesAll(s.delivered);
  }

  /** Deliveries stay in the order of acceptance in every run of so many cancels. */
  ghost predicate DeliversInOrder(cancels: nat) {
    forall steps :: var s := Execute(true, INIT, steps); |s.cancels| <= cancels ==> InOrder(s.delivered)
  }

  /** A run in which a cancel lets a second processor overtake the first, which then delivers an input of before the
      cancel. */
  const BEFORE: seq<Step> := [Send("a"), TryStart(0), Take(0), BeginCancel]
  const DURING: seq<Step> := [Drain(0), LoadStarted(0), StoreFalse(0), Send("b")]
  const AFTER: seq<Step> := [TryStart(1), Take(1), Deliver(1), Deliver(0)]

  lemma FourSteps(s: State, a: Step, b: Step, c: Step, d: Step)
    ensures Execute(true, s, [a, b, c, d]) == Next(true, Next(true, Next(true, Next(true, s, a), b), c), d)
  {
    RunFour(Machine(true), s, a, b, c, d);
  }

  lemma BeforeCancel()
    ensures Execute(true, INIT, BEFORE)
      == State([], true, 0, [Finished], [Holding(Taken(0, 0, "a"))], [Draining], ["a"], [Taken(0, 0, "a")], [])
  {
    hide Execute;
    FourSteps(INIT, Send("a"), TryStart(0), Take(0), BeginCancel);
    var s1 := Next(true, INIT, Send("a"));
    assert s1 == State(["a"], false, 0, [Queued], [], [], ["a"], [], []);
    var s2 := Next(true, s1, TryStart(0));
    assert s2 == State(["a"], true, 0, [Finished], [Idle], [], ["a"], [], []);
  }

  lemma DuringCancel(s: State)
    requires s == State([], true, 0, [Finished], [Holding(Taken(0, 0, "a"))], [Draining], ["a"], [Taken(0, 0, "a")], [])
    ensures Execute(true, s, DURING)
      == State(["b"], false, 0, [Finished, Queued], [Holding(Taken(0, 0, "a"))], [Stored],
               ["a", "b"], [Taken(0, 0, "a")], [])
  {
    hide Execute;
    FourSteps(s, Drain(0), LoadStarted(0), StoreFalse(0), Send("b"));
    assert s.cancels[0 := Loading][0 := Storing][0 := Stored] == [Stored];
  }

  lemma AfterCancel(s: State)
    requires s.queue == ["b"] && !s.started && s.senders == [Finished, Queued]
    requires s.processors == [Holding(Taken(0, 0, "a"))] && s.delivered == [] && |s.removed| == 1
    ensures var s' := Execute(true, s, AFTER);
      s'.accepted == s.accepted && s'.cancels == s.cancels && s'.delivered == [Taken(1, 1, "b"), Taken(0, 0, "a")]
  {
    hide Execute;
    FourSteps(s, TryStart(1), Take(1), Deliver(1), Deliver(0));
  }

  lemma Overtakes()
    ensures var s := Execute(true, INIT, BEFORE + DURING + AFTER);
      |s.cancels| == 1 && s.accepted == ["a", "b"] && s.delivered == [Taken(1, 1, "b"), Taken(0, 0, "a")]
  {
    hide Execute;
    ExecuteAppend(true, INIT, BEFORE + DURING, AFTER);
    ExecuteAppend(true, INIT, BEFORE, DURING);
    BeforeCancel();
    var s := Execute(true, INIT, BEFORE);
    DuringCancel(s);
    AfterCancel(Execute(true, s, DURING));
  }

  /** One cancel is enough to lose the order. */
  lemma OrderIsKeptIffNoCancel(cancels: nat)
    ensures DeliversInOrder(cancels) <==> cancels == 0
  {
    hide Execute;
    if cancels == 0 {
      forall steps | |Execute(true, INIT, steps).cancels| <= 0 ensures InOrder(Execute(true, INIT, steps).delivered) {
        NoCancelKeepsOrder(true, steps);
        OneProcessorKeepsOrder(true, steps);
      }
    } else {
      Overtakes();
      var s := Execute(true, INIT, BEFORE + DURING + AFTER);
      assert s.delivered[0].n > s.delivered[1].n;
    }
  }

  // ---- Which runs keep the order ----

  predicate Hands(s: State, p: nat) {
    p < |s.processors| && s.processors[p].Holding?
  }

  function InHandNow(s: State, p: nat): nat
    requires Hands(s, p)
  {
    s.processors[p].taken.n
  }

  /** Whoever delivers holds the oldest of the inputs in hand. */
  ghost predicate DeliversOldest(s: State, step: Step) {
    step.Deliver? && Hands(s, step.processor) ==>
      forall q: nat :: Hands(s, q) ==> InHandNow(s, step.processor) <= InHandNow(s, q)
  }

  ghost function DeliversOldestNow(): (State, Step) -> bool {
    (s: State, step: Step) => DeliversOldest(s, step)
  }

  predicate EmptyHanded(s: State) {
    forall p :: 0 <= p < |s.processors| ==> s.processors[p] == Idle
  }

  /** Delivered in order, and what is in hand is later than that, and each something else. */
  ghost predicate Ahead(s: State) {
    && InOrder(s.delivered)
    && (forall i :: 0 <= i < |s.delivered| ==> s.delivered[i].n < |s.removed|)
    && (forall p: nat :: Hands(s, p) ==> InHandNow(s, p) < |s.removed|)
    && (forall i, p: nat :: 0 <= i < |s.delivered| && Hands(s, p) ==> s.delivered[i].n < InHandNow(s, p))
    && (forall p: nat, q: nat :: Hands(s, p) && Hands(s, q) && p != q ==> InHandNow(s, p) != InHandNow(s, q))
  }

  /** What a step does to the inputs in hand and to the deliveries. */
  lemma HandsAfter(adapter: bool, s: State, step: Step)
    ensures var s' := Next(adapter, s, step);
      && |s'.removed| >= |s.removed|
      && (forall p: nat :: Hands(s', p) ==>
           || (step == Take(p) && InHandNow(s', p) == |s.removed| < |s'.removed|)
           || (step != Deliver(p) && Hands(s, p) && InHandNow(s', p) == InHandNow(s, p)))
      && (if step.Deliver? && Hands(s, step.processor) then
            s'.delivered == s.delivered + [s.processors[step.processor].taken]
          else s'.delivered == s.delivered)
  {
  }

  lemma OldestKeepsAhead(adapter: bool, s: State, step: Step)
    requires Ahead(s) && DeliversOldest(s, step)
    ensures Ahead(Next(adapter, s, step))
  {
    hide Next;
    hide Hands;
    HandsAfter(adapter, s, step);
  }

  /** Delivered out of order, or bound to be. */
  ghost predicate Disordered(s: State) {
    !InOrder(s.delivered) || exists i, p: nat ::
      0 <= i < |s.delivered| && Hands(s, p) && InHandNow(s, p) < s.delivered[i].n
  }

  lemma StaysDisordered(adapter: bool, s: State, step: Step)
    requires Disordered(s)
    ensures Disordered(Next(adapter, s, step))
  {
    var s' := Next(adapter, s, step);
    assert |s'.delivered| >= |s.delivered| && s'.delivered[..|s.delivered|] == s.delivered;
    if !InOrder(s.delivered) {
      var i, j :| 0 <= i < j < |s.delivered| && !(s.delivered[i].n < s.delivered[j].n);
      assert s'.delivered[i] == s.delivered[i] && s'.delivered[j] == s.delivered[j];
    } else {
      var i, p: nat :| 0 <= i < |s.delivered| && Hands(s, p) && InHandNow(s, p) < s.delivered[i].n;
      assert s'.delivered[i] == s.delivered[i];
      if step == Deliver(p) {
        assert s'.delivered[|s.delivered|].n == InHandNow(s, p);
      } else {
        assert Hands(s', p) && InHandNow(s', p) == InHandNow(s, p);
      }
    }
  }

  lemma {:induction false} RunStaysDisordered(adapter: bool, s: State, steps: seq<Step>)
    requires Disordered(s)
    ensures Disordered(Execute(adapter, s, steps))
    decreases |steps|
  {
    hide Disordered;
    hide Next;
    if steps != [] {
      StaysDisordered(adapter, s, steps[0]);
      RunStaysDisordered(adapter, Next(adapter, s, steps[0]), steps[1..]);
    }
  }

  lemma PassingDisorders(adapter: bool, s: State, step: Step)
    requires !DeliversOldest(s, step)
    ensures Disordered(Next(adapter, s, step))
  {
    var q: nat :| Hands(s, q) && InHandNow(s, q) < InHandNow(s, step.processor);
    var s' := Next(adapter, s, step);
    assert Hands(s', q) && s'.delivered[|s.delivered|].n == InHandNow(s, step.processor);
  }

  lemma {:induction false} OrderedIffGuarded(adapter: bool, s: State, steps: seq<Step>)
    requires Ahead(s) && EmptyHanded(Execute(adapter, s, steps))
    ensures InOrder(Execute(adapter, s, steps).delivered) <==> Guarded(Machine(adapter), s, steps, DeliversOldestNow())
    decreases |steps|
  {
    hide Ahead;
    hide DeliversOldest;
    hide Disordered;
    hide EmptyHanded;
    hide Next;
    hide InOrder;
    if steps == [] {
      AheadIsInOrder(s);
    } else {
      GuardedFront(Machine(adapter), s, steps, DeliversOldestNow());
      var s' := Next(adapter, s, steps[0]);
      if DeliversOldest(s, steps[0]) {
        OldestKeepsAhead(adapter, s, steps[0]);
        OrderedIffGuarded(adapter, s', steps[1..]);
      } else {
        PassingDisorders(adapter, s, steps[0]);
        RunStaysDisordered(adapter, s', steps[1..]);
        EmptyHandedDisorder(Execute(adapter, s', steps[1..]));
      }
    }
  }

  lemma AheadIsInOrder(s: State)
    requires Ahead(s)
    ensures InOrder(s.delivered)
  {
  }

  lemma EmptyHandedDisorder(s: State)
    requires Disordered(s) && EmptyHanded(s)
    ensures !InOrder(s.delivered)
  {
  }

  /** Every run, with any cancels, that leaves nobody with an input in hand: it has delivered in the order of acceptance
      exactly when every delivery was of the oldest input in hand. */
  lemma OrderedIffDeliversOldest(adapter: bool, steps: seq<Step>)
    requires EmptyHanded(Execute(adapter, INIT, steps))
    ensures InOrder(Execute(adapter, INIT, steps).delivered)
      <==> forall k :: 0 <= k < |steps| ==> DeliversOldest(Execute(adapter, INIT, steps[..k]), steps[k])
  {
    hide DeliversOldest;
    hide InOrder;
    hide EmptyHanded;
    hide Ahead;
    InitIsAhead();
    OrderedIffGuarded(adapter, INIT, steps);
  }

  lemma InitIsAhead()
    ensures Ahead(INIT)
  {
  }

  // ---- The server's own fields and methods ----

  /** The steps of a cancel that meets `n` more inputs and then the empty queue, and of one that nothing interrupts. */
  function Drains(c: nat, n: nat): seq<Step> {
    if n == 0 then [] else Drains(c, n - 1) + [Drain(c)]
  }

  function WholeCancel(c: nat, n: nat): seq<Step> {
    [BeginCancel] + Drains(c, n + 1) + [LoadStarted(c), StoreFalse(c)]
  }

  lemma OneMoreDrain(adapter: bool, s: State, c: nat, n: nat)
    ensures Execute(adapter, s, Drains(c, n + 1)) == Next(adapter, Execute(adapter, s, Drains(c, n)), Drain(c))
  {
    hide Next;
    ExecuteAppend(adapter, s, Drains(c, n), [Drain(c)]);
    TwoSteps(adapter, Execute(adapter, s, Drains(c, n)), Drain(c), Drain(c));
  }

  lemma CancelSteps(adapter: bool, s: State, c: nat, n: nat)
    ensures Execute(adapter, s, WholeCancel(c, n)) ==
      Next(adapter, Next(adapter, Execute(adapter, Next(adapter, s, BeginCancel), Drains(c, n + 1)),
        LoadStarted(c)), StoreFalse(c))
  {
    hide Next;
    hide Drains;
    ExecuteAppend(adapter, s, [BeginCancel] + Drains(c, n + 1), [LoadStarted(c), StoreFalse(c)]);
    ExecuteAppend(adapter, s, [BeginCancel], Drains(c, n + 1));
    TwoSteps(adapter, s, BeginCancel, BeginCancel);
    TwoSteps(adapter, Execute(adapter, s, [BeginCancel] + Drains(c, n + 1)), LoadStarted(c), StoreFalse(c));
  }

  class InputServer {
    const adapter: bool
    var inputQueue: seq<Input>
    var cliStarted: bool
    var inputDropped: nat
    ghost var processors: seq<Processor>
    ghost var senders: seq<Sender>
    ghost var cancels: seq<Cancel>
    ghost var accepted: seq<Input>
    ghost var removed: seq<Removal>
    ghost var delivered: seq<Removal>

    ghost function Abs(): State
      reads this
    {
      State(inputQueue, cliStarted, inputDropped, senders, processors, cancels, accepted, removed, delivered)
    }

    constructor (adapter: bool)
      ensures this.adapter == adapter && Abs() == INIT
    {
      this.adapter := adapter;
      inputQueue, cliStarted, inputDropped, processors := [], false, 0, [];
      senders, cancels, accepted, removed, delivered := [], [], [], [], [];
    }

    /** The non-blocking send. */
    method SendInput(content: Input) returns (queued: bool)
      modifies this
      ensures Abs() == Next(adapter, old(Abs()), Send(content))
      ensures |senders| == |old(senders)| + 1 && senders[|old(senders)|] == if queued then Queued else Refused
    {
      queued := |inputQueue| < CAPACITY;
      if queued {
        inputQueue, accepted, senders := inputQueue + [content], accepted + [content], senders + [Queued];
      } else {
        inputDropped, senders := inputDropped + 1, senders + [Refused];
      }
    }

    /** The compare-and-swap on the flag, and the processor it starts. */
    method StartProcessor(ghost k: nat)
      requires k < |senders| && senders[k] == Queued
      modifies this
      ensures Abs() == Next(adapter, old(Abs()), TryStart(k))
    {
      senders := senders[k := Finished];
      if adapter && !cliStarted {
        cliStarted := true;
        processors := processors + [Idle];
      }
    }

    method QueueInput(content: Input)
      modifies this
      ensures Abs() == Execute(adapter, old(Abs()), [Send(content), TryStart(|old(senders)|)])
    {
      ghost var k := |senders|;
      TwoSteps(adapter, Abs(), Send(content), TryStart(k));
      var queued := SendInput(content);
      if queued { StartProcessor(k); }
    }

    /** One round of a processor: it receives an input, if one waits, and hands it to the CLI. */
    method ProcessOne(ghost p: nat)
      requires p < |processors| && processors[p] == Idle
      modifies this
      ensures Abs() == Execute(adapter, old(Abs()), [Take(p), Deliver(p)])
    {
      TwoSteps(adapter, Abs(), Take(p), Deliver(p));
      if inputQueue == [] { return; }
      var input := inputQueue[0];
      ghost var taken := Taken(p, |removed|, input);
      inputQueue, removed := inputQueue[1..], removed + [taken];
      delivered := delivered + [taken];
    }

    /** Receives until the queue is empty, and counts. */
    method DrainInputQueue(ghost c: nat) returns (drained: nat)
      requires c < |cancels| && cancels[c] == Draining
      modifies this
      ensures inputQueue == [] && drained == |old(inputQueue)|
      ensures Abs() == Execute(adapter, old(Abs()), Drains(c, drained + 1))
      ensures cancels == old(cancels)[c := Loading] && processors == old(processors) && delivered == old(delivered)
    {
      hide Execute;
      hide Drains;
      drained := 0;
      NoDrains(adapter, Abs(), c);
      while inputQueue != []
        invariant Abs() == Execute(adapter, old(Abs()), Drains(c, drained))
        invariant drained + |inputQueue| == |old(inputQueue)|
        invariant cancels == old(cancels) && processors == old(processors) && delivered == old(delivered)
        decreases |inputQueue|
      {
        OneMoreDrain(adapter, old(Abs()), c, drained);
        removed, inputQueue := removed + [Drained(c, |removed|, inputQueue[0])], inputQueue[1..];
        drained := drained + 1;
      }
      OneMoreDrain(adapter, old(Abs()), c, drained);
      cancels := cancels[c := Loading];
    }

    /** A cancel that nothing interrupts empties the queue and clears the flag, and leaves every processor running with
        what it holds. */
    method HandleCancel() returns (drained: nat)
      modifies this
      ensures Abs() == Execute(adapter, old(Abs()), WholeCancel(|old(cancels)|, drained))
      ensures drained == |old(inputQueue)|
      ensures inputQueue == [] && !cliStarted && processors == old(processors) && delivered == old(delivered)
    {
      hide Execute;
      hide Drains;
      hide WholeCancel;
      ghost var c := |cancels|;
      cancels := cancels + [Draining];
      drained := DrainInputQueue(c);
      CancelSteps(adapter, old(Abs()), c, drained);
      cancels := cancels[c := if cliStarted then Storing else Skipped];
      if cliStarted {
        cancels := cancels[c := Stored];
        cliStarted := false;
      }
    }
  }

  lemma NoDrains(adapter: bool, s: State, c: nat)
    ensures Execute(adapter, s, Drains(c, 0)) == s
  {
  }
}
