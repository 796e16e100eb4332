/** The limit on clients under concurrent attempts: an attempt is checked against the current counter first and enters
    the registry only after the upgrade, or gives up, so several may have been admitted at once. */
module Admission {
  import ClientRegistry
  import opened Runs

  type DeviceId = ClientRegistry.DeviceId

  /** The registry, and how many attempts have been admitted and have neither entered nor given up. */
  datatype State = State(registry: ClientRegistry.State, admitted: nat)

  datatype Step = Check | Enter(device: DeviceId) | GiveUp | Leave(device: DeviceId)

  const INIT: State := State(ClientRegistry.INIT, 0)

  function Next(maxClients: int, s: State, step: Step): State {
    match step
    case Check => if ClientRegistry.Admits(maxClients, s.registry) then s.(admitted := s.admitted + 1) else s
    case Enter(device) =>
      if s.admitted == 0 then s
      else State(ClientRegistry.Next(s.registry, ClientRegistry.Add(device)), s.admitted - 1)
    case GiveUp => if s.admitted == 0 then s else s.(admitted := s.admitted - 1)
    case Leave(device) => s.(registry := ClientRegistry.Next(s.registry, ClientRegistry.Remove(device)))
  }

  function Machine(maxClients: int): (State, Step) -> State {
    (s: State, step: Step) => Next(maxClients, s, step)
  }

  function Execute(maxClients: int, s: State, steps: seq<Step>): State {
    Run(Machine(maxClients), s, steps)
  }

  /** Never more than `n` attempts between their check and their end. */
  ghost predicate AtOnce(maxClients: int, n: nat, s: State, steps: seq<Step>)
    decreases |steps|
  {
    s.admitted <= n && (steps != [] ==> AtOnce(maxClients, n, Next(maxClients, s, steps[0]), steps[1..]))
  }

  lemma {:induction false} AtOnceAppend(maxClients: int, n: nat, s: State, a: seq<Step>, b: seq<Step>)
    requires AtOnce(maxClients, n, s, a) && AtOnce(maxClients, n, Execute(maxClients, s, a), b)
    ensures AtOnce(maxClients, n, s, a + b)
    ensures Execute(maxClients, s, a + b) == Execute(maxClients, Execute(maxClients, s, a), b)
    decreases |a|
  {
    hide Next;
    RunAppend(Machine(maxClients), s, a, b);
    if a == [] {
      assert a + b == b;
    } else {
      assert (a + b)[0] == a[0] && (a + b)[1..] == a[1..] + b;
      AtOnceAppend(maxClients, n, Next(maxClients, s, a[0]), a[1..], b);
    }
  }

  lemma AtOnceOne(maxClients: int, n: nat, s: State, step: Step)
    requires s.admitted <= n && Next(maxClients, s, step).admitted <= n
    ensures AtOnce(maxClients, n, s, [step])
    ensures Execute(maxClients, s, [step]) == Next(maxClients, s, step)
  {
    hide Next;
    RunOne(Machine(maxClients), s, step);
    assert AtOnce(maxClients, n, Next(maxClients, s, step), []);
    assert [step][1..] == [];
  }

  // ---- How far the limit can be exceeded ----

  /** Those who are counted and those who are admitted; with one attempt at a time, replacements stay below the limit. */
  ghost predicate Bounded(maxClients: int, n: nat, s: State) {
    && ClientRegistry.Counters(s.registry)
    && s.registry.current + s.admitted <= maxClients + n - 1
    && (n == 1 ==> s.registry.replaced <= maxClients - 1)
  }

  lemma NextStaysBounded(maxClients: int, n: nat, s: State, step: Step)
    requires maxClients > 0 && n >= 1 && Bounded(maxClients, n, s) && Next(maxClients, s, step).admitted <= n
    ensures Bounded(maxClients, n, Next(maxClients, s, step))
  {
    match step
    case Enter(device) =>
      ClientRegistry.NextCounts(s.registry, ClientRegistry.Add(device));
      if device in s.registry.clients { NotEmpty(s.registry, device); }
    case Leave(device) => ClientRegistry.NextCounts(s.registry, ClientRegistry.Remove(device));
    case _ =>
  }

  lemma NotEmpty(registry: ClientRegistry.State, device: DeviceId)
    requires device in registry.clients
    ensures |registry.clients| >= 1
  {
    assert registry.clients != map[];
  }

  lemma {:induction false} RunStaysBounded(maxClients: int, n: nat, s: State, steps: seq<Step>)
    requires maxClients > 0 && n >= 1 && Bounded(maxClients, n, s) && AtOnce(maxClients, n, s, steps)
    ensures Bounded(maxClients, n, Execute(maxClients, s, steps))
    decreases |steps|
  {
    hide Bounded;
    hide Next;
    if steps != [] {
      NextStaysBounded(maxClients, n, s, steps[0]);
      RunStaysBounded(maxClients, n, Next(maxClients, s, steps[0]), steps[1..]);
    }
  }

  lemma Reachable(maxClients: int, n: nat, steps: seq<Step>)
    requires maxClients > 0 && n >= 1 && AtOnce(maxClients, n, INIT, steps)
    ensures Bounded(maxClients, n, Execute(maxClients, INIT, steps))
  {
    hide Execute;
    hide ClientRegistry.Placed;
    hide ClientRegistry.Counters;
    ClientRegistry.InitKeeps();
    RunStaysBounded(maxClients, n, INIT, steps);
  }

  /** In every run with at most `n` attempts admitted at once, at most so many clients are registered. */
  ghost predicate StaysWithin(maxClients: int, n: nat, bound: int) {
    forall steps :: AtOnce(maxClients, n, INIT, steps) ==>
      |Execute(maxClients, INIT, steps).registry.clients| <= bound
  }

  /** A different device for every number. */
  function Name(k: nat): DeviceId {
    seq(k, _ => 'x')
  }

  /** So many clients are registered under the first names, none of them ever replaced. */
  ghost predicate Named(s: State, k: nat) {
    && ClientRegistry.Counters(s.registry) && |s.registry.clients| == k && s.registry.replaced == 0
    && forall j: nat :: j >= k ==> Name(j) !in s.registry.clients
  }

  lemma EnterNamed(maxClients: int, s: State, k: nat)
    requires Named(s, k) && s.admitted > 0
    ensures var s' := Next(maxClients, s, Enter(Name(k))); Named(s', k + 1) && s'.admitted == s.admitted - 1
  {
    ClientRegistry.NextCounts(s.registry, ClientRegistry.Add(Name(k)));
    var s' := Next(maxClients, s, Enter(Name(k)));
    forall j: nat | j >= k + 1 ensures Name(j) !in s'.registry.clients {
      assert |Name(j)| != |Name(k)|;
    }
  }

  /** Attempts one after the other, each entering before the next is checked. */
  lemma {:induction false} OneByOne(maxClients: int, n: nat, k: nat) returns (steps: seq<Step>)
    requires n >= 1 && k <= maxClients
    ensures AtOnce(maxClients, n, INIT, steps)
    ensures var s := Execute(maxClients, INIT, steps); Named(s, k) && s.admitted == 0
  {
    hide Named;
    steps := [];
    NobodyNamed();
    for i := 0 to k
      invariant AtOnce(maxClients, n, INIT, steps)
      invariant var s := Execute(maxClients, INIT, steps); Named(s, i) && s.admitted == 0
    {
      steps := CheckedIn(maxClients, n, steps, i);
      steps := EnteredAs(maxClients, n, steps, i);
    }
  }

  lemma NobodyNamed()
    ensures Named(INIT, 0)
  {
    hide ClientRegistry.Placed;
    hide ClientRegistry.Counters;
    hide Name;
    ClientRegistry.InitKeeps();
    assert INIT.registry.clients == map[];
  }

  /** One more check, when there is room. */
  lemma CheckedIn(maxClients: int, n: nat, steps: seq<Step>, k: nat) returns (more: seq<Step>)
    requires AtOnce(maxClients, n, INIT, steps)
    requires var s := Execute(maxClients, INIT, steps); Named(s, k) && k < maxClients && s.admitted < n
    ensures AtOnce(maxClients, n, INIT, more)
    ensures var s, s' := Execute(maxClients, INIT, steps), Execute(maxClients, INIT, more);
      Named(s', k) && s'.admitted == s.admitted + 1
  {
    hide AtOnce;
    hide Execute;
    var s := Execute(maxClients, INIT, steps);
    AtOnceOne(maxClients, n, s, Check);
    AtOnceAppend(maxClients, n, INIT, steps, [Check]);
    more := steps + [Check];
  }

  /** One more entry under the next name. */
  lemma EnteredAs(maxClients: int, n: nat, steps: seq<Step>, k: nat) returns (more: seq<Step>)
    requires AtOnce(maxClients, n, INIT, steps)
    requires var s := Execute(maxClients, INIT, steps); Named(s, k) && 0 < s.admitted <= n
    ensures AtOnce(maxClients, n, INIT, more)
    ensures var s, s' := Execute(maxClients, INIT, steps), Execute(maxClients, INIT, more);
      Named(s', k + 1) && s'.admitted == s.admitted - 1
  {
    hide AtOnce;
    hide Execute;
    hide Named;
    hide Next;
    var s := Execute(maxClients, INIT, steps);
    EnterNamed(maxClients, s, k);
    AtOnceOne(maxClients, n, s, Enter(Name(k)));
    AtOnceAppend(maxClients, n, INIT, steps, [Enter(Name(k))]);
    more := steps + [Enter(Name(k))];
  }

  /** All but one place taken, then `n` attempts checked before any of them enters. */
  lemma Crowd(maxClients: int, n: nat) returns (steps: seq<Step>)
    requires maxClients > 0 && n >= 1
    ensures AtOnce(maxClients, n, INIT, steps)
    ensures |Execute(maxClients, INIT, steps).registry.clients| == maxClients + n - 1
  {
    hide Execute;
    hide AtOnce;
    steps := OneByOne(maxClients, n, maxClients - 1);
    for i := 0 to n
      invariant AtOnce(maxClients, n, INIT, steps)
      invariant var s := Execute(maxClients, INIT, steps); Named(s, maxClients - 1) && s.admitted == i
    {
      steps := CheckedIn(maxClients, n, steps, maxClients - 1);
    }
    for i := 0 to n
      invariant AtOnce(maxClients, n, INIT, steps)
      invariant var s := Execute(maxClients, INIT, steps); Named(s, maxClients - 1 + i) && s.admitted == n - i
    {
      steps := EnteredAs(maxClients, n, steps, maxClients - 1 + i);
    }
  }

  /** With at most `n` attempts admitted at once, the registry can exceed the limit by exactly `n - 1`. */
  lemma OvershootIsExact(maxClients: int, n: nat, bound: int)
    requires maxClients > 0 && n >= 1
    ensures StaysWithin(maxClients, n, bound) <==> bound >= maxClients + n - 1
  {
    hide AtOnce;
    hide Execute;
    if bound >= maxClients + n - 1 {
      forall steps | AtOnce(maxClients, n, INIT, steps)
        ensures |Execute(maxClients, INIT, steps).registry.clients| <= bound
      {
        Reachable(maxClients, n, steps);
      }
    } else {
      var steps := Crowd(maxClients, n);
    }
  }

  /** So the limit is one if and only if attempts come one at a time. */
  lemma LimitHoldsIffOneAtOnce(maxClients: int, n: nat)
    requires maxClients > 0 && n >= 1
    ensures StaysWithin(maxClients, n, maxClients) <==> n == 1
  {
    OvershootIsExact(maxClients, n, maxClients);
  }

  // ---- Whether the limit can shut everybody out ----

  /** Whenever nobody is registered, somebody can be admitted. */
  ghost predicate NeverLocksOut(maxClients: int, n: nat) {
    forall steps :: AtOnce(maxClients, n, INIT, steps) ==>
      var registry := Execute(maxClients, INIT, steps).registry;
      registry.clients == map[] ==> ClientRegistry.Admits(maxClients, registry)
  }

  /** Nobody is registered or admitted, and the counter has drifted by so many replacements. */
  ghost predicate Drifted(s: State, k: int) {
    s.registry.clients == map[] && s.registry.current == k && s.admitted == 0
  }

  const DEVICE: DeviceId := "a"

  /** A device connects, connects again and leaves, the second attempt after the first or beside it. */
  const INTURN: seq<Step> := [Check, Enter(DEVICE), Check, Enter(DEVICE), Leave(DEVICE)]
  const BESIDE: seq<Step> := [Check, Check, Enter(DEVICE), Enter(DEVICE), Leave(DEVICE)]

  lemma FiveSteps(m: int, n: nat, s: State, a: Step, b: Step, c: Step, d: Step, e: Step)
    requires var s1 := Next(m, s, a); var s2 := Next(m, s1, b); var s3 := Next(m, s2, c); var s4 := Next(m, s3, d);
      && s.admitted <= n && s1.admitted <= n && s2.admitted <= n && s3.admitted <= n && s4.admitted <= n
      && Next(m, s4, e).admitted <= n
    ensures AtOnce(m, n, s, [a, b, c, d, e])
    ensures Execute(m, s, [a, b, c, d, e]) == Next(m, Next(m, Next(m, Next(m, Next(m, s, a), b), c), d), e)
  {
    hide Next;
    hide Execute;
    hide AtOnce;
    AtOnceOne(m, n, s, a);
    AtOnceOne(m, n, Next(m, s, a), b);
    AtOnceAppend(m, n, s, [a], [b]);
    AtOnceOne(m, n, Next(m, Next(m, s, a), b), c);
    AtOnceAppend(m, n, s, [a] + [b], [c]);
    AtOnceOne(m, n, Next(m, Next(m, Next(m, s, a), b), c), d);
    AtOnceAppend(m, n, s, [a] + [b] + [c], [d]);
    AtOnceOne(m, n, Next(m, Next(m, Next(m, Next(m, s, a), b), c), d), e);
    AtOnceAppend(m, n, s, [a] + [b] + [c] + [d], [e]);
    assert [a] + [b] + [c] + [d] + [e] == [a, b, c, d, e];
  }

  lemma InTurnDrifts(maxClients: int, n: nat, s: State, k: nat)
    requires n >= 1 && Drifted(s, k) && k + 1 < maxClients
    ensures AtOnce(maxClients, n, s, INTURN) && Drifted(Execute(maxClients, s, INTURN), k + 1)
  {
    FiveSteps(maxClients, n, s, Check, Enter(DEVICE), Check, Enter(DEVICE), Leave(DEVICE));
  }

  lemma BesideDrifts(maxClients: int, n: nat, s: State, k: nat)
    requires n >= 2 && Drifted(s, k) && k < maxClients
    ensures AtOnce(maxClients, n, s, BESIDE) && Drifted(Execute(maxClients, s, BESIDE), k + 1)
  {
    FiveSteps(maxClients, n, s, Check, Check, Enter(DEVICE), Enter(DEVICE), Leave(DEVICE));
  }

  lemma LockOut(maxClients: int, n: nat) returns (steps: seq<Step>)
    requires maxClients > 0 && n >= 2
    ensures AtOnce(maxClients, n, INIT, steps) && Drifted(Execute(maxClients, INIT, steps), maxClients)
  {
    hide Next;
    steps := [];
    for k := 0 to maxClients - 1
      invariant AtOnce(maxClients, n, INIT, steps) && Drifted(Execute(maxClients, INIT, steps), k)
    {
      InTurnDrifts(maxClients, n, Execute(maxClients, INIT, steps), k);
      AtOnceAppend(maxClients, n, INIT, steps, INTURN);
      steps := steps + INTURN;
    }
    BesideDrifts(maxClients, n, Execute(maxClients, INIT, steps), maxClients - 1);
    AtOnceAppend(maxClients, n, INIT, steps, BESIDE);
    steps := steps + BESIDE;
  }

  /** Replacements can use up the whole limit, so that everybody is refused while nobody is connected, if and only if
      two attempts can be admitted at once. */
  lemma LocksOutIffTwoAtOnce(maxClients: int, n: nat)
    requires maxClients > 0 && n >= 1
    ensures NeverLocksOut(maxClients, n) <==> n == 1
  {
    hide AtOnce;
    hide Execute;
    if n == 1 {
      forall steps | AtOnce(maxClients, n, INIT, steps)
        ensures var registry := Execute(maxClients, INIT, steps).registry;
          registry.clients == map[] ==> ClientRegistry.Admits(maxClients, registry)
      {
        Reachable(maxClients, n, steps);
      }
    } else {
      var steps := LockOut(maxClients, n);
    }
  }
}
