/** What becomes of the inputs that are sent: which are refused, and how the others get through the queue. */
module InputSends {
  import opened Runs
  import opened InputQueue

  // ---- Refusals ----

  /** After any run, a send is refused if and only if exactly 100 inputs wait; otherwise the input waits last. */
  lemma RefusedIffHundredWait(adapter: bool, steps: seq<Step>, input: Input)
    ensures var s, s' := Execute(adapter, INIT, steps), Execute(adapter, INIT, steps + [Send(input)]);
      if |s.queue| == 100 then
        s'.queue == s.queue && s'.accepted == s.accepted && s'.dropped == s.dropped + 1 && s'.senders == s.senders + [Refused]
      else
        && |s.queue| < 100 && s'.queue == s.queue + [input] && s'.accepted == s.accepted + [input]
        && s'.dropped == s.dropped && s'.senders == s.senders + [Queued]
  {
    hide Execute;
    EveryInterleaving(adapter, steps);
    ExecuteAppend(adapter, INIT, steps, [Send(input)]);
    TwoSteps(adapter, Execute(adapter, INIT, steps), Send(input), Send(input));
  }

  function CountSends(steps: seq<Step>): nat {
    if steps == [] then 0 else (if steps[0].Send? then 1 else 0) + CountSends(steps[1..])
  }

  ghost predicate DropsNeedMany(s: State) {
    Conserved(s) && (s.dropped > 0 ==> |s.senders| > 100)
  }

  lemma {:induction false} DropsOverRun(adapter: bool, s: State, steps: seq<Step>)
    requires DropsNeedMany(s)
    ensures DropsNeedMany(Execute(adapter, s, steps))
    ensures |Execute(adapter, s, steps).senders| == |s.senders| + CountSends(steps)
    decreases |steps|
  {
    hide Next;
    hide DropsNeedMany;
    if steps != [] {
      DropsAfter(adapter, s, steps[0]);
      DropsOverRun(adapter, Next(adapter, s, steps[0]), steps[1..]);
    }
  }

  lemma DropsAfter(adapter: bool, s: State, step: Step)
    requires DropsNeedMany(s)
    ensures DropsNeedMany(Next(adapter, s, step))
    ensures |Next(adapter, s, step).senders| == |s.senders| + (if step.Send? then 1 else 0)
  {
    hide Inputs;
    NextConserves(adapter, s, step);
  }

  /** A run with at most 100 sends drops nothing, whatever else happens in it. */
  lemma HundredSendsDropNothing(adapter: bool, steps: seq<Step>)
    requires CountSends(steps) <= 100
    ensures Execute(adapter, INIT, steps).dropped == 0
  {
    hide Execute;
    DropsOverRun(adapter, INIT, steps);
  }

  /** Without an adapter no processor ever starts. */
  lemma {:induction false} NoAdapterNoProcessor(s: State, steps: seq<Step>)
    requires s.processors == [] && !s.started
    ensures Execute(false, s, steps).processors == [] && !Execute(false, s, steps).started
    decreases |steps|
  {
    if steps != [] { NoAdapterNoProcessor(Next(false, s, steps[0]), steps[1..]); }
  }

  // ---- Sends on their own ----

  function Sends(inputs: seq<Input>): (steps: seq<Step>)
    ensures |steps| == |inputs|
  {
    if inputs == [] then [] else Sends(inputs[..|inputs| - 1]) + [Send(inputs[|inputs| - 1])]
  }

  /** Sends that nothing interrupts: the first 100 inputs wait in order and each one more is dropped. */
  lemma {:induction false} SendsAlone(adapter: bool, inputs: seq<Input>)
    ensures var s, n := Execute(adapter, INIT, Sends(inputs)), |inputs|;
      && s.queue == s.accepted == (if n <= 100 then inputs else inputs[..100])
      && s.dropped == (if n <= 100 then 0 else n - 100)
      && !s.started && s.processors == [] && s.removed == [] && s.delivered == [] && |s.senders| == n
      && (n > 0 ==> s.senders[0] == Queued)
    decreases |inputs|
  {
    hide Next;
    if inputs != [] {
      var n := |inputs| - 1;
      var init, last := inputs[..n], Send(inputs[n]);
      SendsAlone(adapter, init);
      var s := Execute(adapter, INIT, Sends(init));
      ExecuteAppend(adapter, INIT, Sends(init), [last]);
      TwoSteps(adapter, s, last, last);
      OneMoreSend(adapter, s, inputs);
    }
  }

  lemma OneMoreSend(adapter: bool, s: State, inputs: seq<Input>)
    requires inputs != []
    requires var n := |inputs| - 1; s.queue == if n <= 100 then inputs[..n] else inputs[..n][..100]
    ensures var s', n := Next(adapter, s, Send(inputs[|inputs| - 1])), |inputs|;
      && s'.queue == (if n <= 100 then inputs else inputs[..100])
      && s'.accepted == (if n <= 100 then s.accepted + [inputs[n - 1]] else s.accepted)
      && s'.dropped == (if n <= 100 then s.dropped else s.dropped + 1)
      && s' == s.(queue := s'.queue, accepted := s'.accepted, dropped := s'.dropped, senders := s'.senders)
      && s'.senders == s.senders + [if n <= 100 then Queued else Refused]
  {
    var n := |inputs| - 1;
    assert inputs[..n] + [inputs[n]] == inputs;
    if n > 100 { assert inputs[..n][..100] == inputs[..100]; }
  }

  // ---- From the sender to the CLI ----

  function Rounds(n: nat): seq<Step> {
    if n == 0 then [] else [Take(0), Deliver(0)] + Rounds(n - 1)
  }

  lemma OneRound(adapter: bool, s: State)
    requires s.processors == [Idle] && s.queue != []
    ensures Execute(adapter, s, [Take(0), Deliver(0)]) == s.(
      queue := s.queue[1..],
      removed := s.removed + [Taken(0, |s.removed|, s.queue[0])],
      delivered := s.delivered + [Taken(0, |s.removed|, s.queue[0])])
  {
    hide Execute;
    TwoSteps(adapter, s, Take(0), Deliver(0));
  }

  /** A processor left to itself delivers all that waits, in order, and nothing else. */
  lemma {:induction false} RoundsDeliverAll(adapter: bool, s: State)
    requires s.processors == [Idle]
    ensures var s' := Execute(adapter, s, Rounds(|s.queue|));
      && s'.queue == [] && Inputs(s'.delivered) == Inputs(s.delivered) + s.queue
      && s'.dropped == s.dropped && s'.accepted == s.accepted
    decreases |s.queue|
  {
    hide Execute;
    hide Inputs;
    var n := |s.queue|;
    if n == 0 {
      NoRounds(adapter, s);
    } else {
      OneRound(adapter, s);
      var s1 := Execute(adapter, s, [Take(0), Deliver(0)]);
      ExecuteAppend(adapter, s, [Take(0), Deliver(0)], Rounds(n - 1));
      RoundsDeliverAll(adapter, s1);
      Appended(s.delivered, Taken(0, |s.removed|, s.queue[0]));
      assert Inputs(s.delivered) + [s.queue[0]] + s.queue[1..] == Inputs(s.delivered) + s.queue;
    }
  }

  lemma NoRounds(adapter: bool, s: State)
    ensures Execute(adapter, s, Rounds(0)) == s
  {
  }

  /** Up to 100 inputs sent before anything takes one, the processor that the first sender starts, and its rounds: the
      CLI has got exactly the inputs, in the order they were sent, and nothing is dropped or left. */
  lemma SentIsDelivered(inputs: seq<Input>)
    requires 0 < |inputs| <= 100
    ensures var s := Execute(true, INIT, Sends(inputs) + [TryStart(0)] + Rounds(|inputs|));
      Inputs(s.delivered) == inputs && s.queue == [] && s.dropped == 0
  {
    hide Execute;
    hide Next;
    hide Sends;
    hide Rounds;
    hide Inputs;
    var s1 := Execute(true, INIT, Sends(inputs));
    SendsAlone(true, inputs);
    TwoSteps(true, s1, TryStart(0), TryStart(0));
    var s2 := Next(true, s1, TryStart(0));
    FirstSenderStarts(s1);
    RoundsDeliverAll(true, s2);
    ExecuteAppend(true, INIT, Sends(inputs), [TryStart(0)]);
    ExecuteAppend(true, INIT, Sends(inputs) + [TryStart(0)], Rounds(|inputs|));
    NoInputs();
    assert [] + inputs == inputs;
  }

  lemma FirstSenderStarts(s: State)
    requires s.senders != [] && s.senders[0] == Queued && !s.started && s.processors == []
    ensures var s' := Next(true, s, TryStart(0));
      && s'.started && s'.processors == [Idle] && s'.queue == s.queue
      && s'.dropped == s.dropped && s'.delivered == s.delivered
  {
  }

  lemma NoInputs()
    ensures Inputs([]) == []
  {
  }
}
