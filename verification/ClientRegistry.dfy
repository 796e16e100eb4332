/** The registry of connected clients and its counters. Adding, replacing and removing happen under one lock, so each
    is a step; a listener may close its client at any time. */
module ClientRegistry {
  import opened Runs

  const NANOSECONDS: int := 1_000_000_000
  const HEARTBEAT_INTERVAL: int := 10 * NANOSECONDS

  type DeviceId = string

  /** Clients are numbered in the order they are added. `replaced` counts the additions that found their device
      registered, and `highest` is the largest value the current counter ever had. */
  datatype State = State(
    clients: map<DeviceId, nat>, closed: set<nat>,
    total: nat, disconnections: nat, current: int, peak: int,
    replaced: nat, highest: int)

  datatype Step = Add(device: DeviceId) | Remove(device: DeviceId) | Close(client: nat)

  const INIT: State := State(map[], {}, 0, 0, 0, 0, 0, 0)

  function Max(a: int, b: int): int {
    if a < b then b else a
  }

  /** The device's old client is closed and counted as disconnected, but stays where it is. */
  function CloseOld(s: State, device: DeviceId): State
    requires device in s.clients
  {
    s.(closed := s.closed + {s.clients[device]}, disconnections := s.disconnections + 1, replaced := s.replaced + 1)
  }

  function Register(s: State, device: DeviceId): State {
    var current := s.current + 1;
    s.(clients := s.clients[device := s.total], total := s.total + 1,
       current := current, peak := Max(s.peak, current), highest := Max(s.highest, current))
  }

  function Next(s: State, step: Step): State {
    match step
    case Add(device) => Register(if device in s.clients then CloseOld(s, device) else s, device)
    case Remove(device) =>
      if device !in s.clients then s
      else
        s.(clients := s.clients - {device}, closed := s.closed + {s.clients[device]},
           disconnections := s.disconnections + 1, current := s.current - 1, highest := Max(s.highest, s.current - 1))
    case Close(client) => if client < s.total then s.(closed := s.closed + {client}) else s
  }

  function Machine(): (State, Step) -> State {
    (s: State, step: Step) => Next(s, step)
  }

  function Execute(s: State, steps: seq<Step>): State {
    Run(Machine(), s, steps)
  }

  // ---- What every run keeps ----

  ghost predicate Counters(s: State) {
    && s.total - s.disconnections == |s.clients|
    && s.current == |s.clients| + s.replaced
    && s.peak == s.highest >= s.current
  }

  ghost predicate Registered(s: State, client: nat) {
    exists d :: d in s.clients && s.clients[d] == client
  }

  /** Every client ever added is registered, once, or closed. */
  ghost predicate Placed(s: State) {
    && (forall d :: d in s.clients ==> s.clients[d] < s.total)
    && (forall d, e :: d in s.clients && e in s.clients && s.clients[d] == s.clients[e] ==> d == e)
    && (forall c :: 0 <= c < s.total ==> c in s.closed || Registered(s, c))
    && (forall c :: c in s.closed ==> c < s.total)
  }

  lemma SizeWith(clients: map<DeviceId, nat>, device: DeviceId, client: nat)
    ensures |clients[device := client]| == |clients| + (if device in clients then 0 else 1)
  {
    assert clients[device := client].Keys == clients.Keys + {device};
  }

  lemma SizeWithout(clients: map<DeviceId, nat>, device: DeviceId)
    requires device in clients
    ensures |clients - {device}| == |clients| - 1
  {
    assert (clients - {device}).Keys == clients.Keys - {device};
  }

  lemma NextCounts(s: State, step: Step)
    requires Counters(s)
    ensures Counters(Next(s, step))
  {
    match step
    case Add(device) => SizeWith(s.clients, device, s.total);
    case Remove(device) => if device in s.clients { SizeWithout(s.clients, device); }
    case Close(client) =>
  }

  lemma NextPlaces(s: State, step: Step)
    requires Placed(s)
    ensures Placed(Next(s, step))
  {
    hide Max;
    var s' := Next(s, step);
    forall c | 0 <= c < s'.total && c !in s'.closed ensures Registered(s', c) {
      if c == s.total {
        assert step.Add? && s'.clients[step.device] == c;
      } else {
        assert Registered(s, c);
        var d :| d in s.clients && s.clients[d] == c;
        assert d in s'.clients && s'.clients[d] == c;
      }
    }
  }

  lemma {:induction false} ExecuteKeeps(s: State, steps: seq<Step>)
    requires Counters(s) && Placed(s)
    ensures Counters(Execute(s, steps)) && Placed(Execute(s, steps))
    ensures s.closed <= Execute(s, steps).closed && s.highest <= Execute(s, steps).highest
    decreases |steps|
  {
    hide Counters;
    hide Placed;
    if steps != [] {
      NextCounts(s, steps[0]);
      NextPlaces(s, steps[0]);
      ExecuteKeeps(Next(s, steps[0]), steps[1..]);
    }
  }

  lemma InitKeeps()
    ensures Counters(INIT) && Placed(INIT)
  {
    assert INIT.clients == map[] && INIT.closed == {};
  }

  lemma Reachable(steps: seq<Step>)
    ensures Counters(Execute(INIT, steps)) && Placed(Execute(INIT, steps))
  {
    hide Execute;
    hide Counters;
    hide Placed;
    InitKeeps();
    ExecuteKeeps(INIT, steps);
  }

  /** Every run: connections less disconnections is the size of the registry; the current counter is above that size by
      the number of replacements; and every client that was replaced or removed is closed. */
  lemma EveryRun(steps: seq<Step>)
    ensures var s := Execute(INIT, steps);
      && s.total - s.disconnections == |s.clients|
      && s.current == |s.clients| + s.replaced
      && s.peak == s.highest
      && forall c :: 0 <= c < s.total ==> c in s.closed || Registered(s, c)
  {
    hide Execute;
    Reachable(steps);
  }

  lemma ExecuteAppend(s: State, a: seq<Step>, b: seq<Step>)
    ensures Execute(s, a + b) == Execute(Execute(s, a), b)
  {
    RunAppend(Machine(), s, a, b);
  }

  /** Closed once is closed for good, however the run goes on. */
  lemma ClosedForGood(before: seq<Step>, after: seq<Step>)
    ensures Execute(INIT, before).closed <= Execute(INIT, before + after).closed
  {
    hide Execute;
    hide Counters;
    hide Placed;
    ExecuteAppend(INIT, before, after);
    Reachable(before);
    ExecuteKeeps(Execute(INIT, before), after);
  }

  /** The peak is the largest value of the current counter over all prefixes of the run, and some prefix has it. */
  lemma {:induction false} PeakIsHighest(steps: seq<Step>) returns (k: nat)
    ensures k <= |steps| && Execute(INIT, steps).peak == Execute(INIT, steps[..k]).current
    ensures forall j :: 0 <= j <= |steps| ==> Execute(INIT, steps[..j]).current <= Execute(INIT, steps).peak
    decreases |steps|
  {
    hide Next;
    hide Execute;
    if steps == [] {
      NoSteps();
      assert steps[..0] == [];
      k := 0;
    } else {
      var n := |steps| - 1;
      var rest := steps[..n];
      assert steps[..n + 1] == steps == rest + [steps[n]];
      k := PeakIsHighest(rest);
      assert forall j :: 0 <= j <= n ==> rest[..j] == steps[..j];
      ExecuteAppend(INIT, rest, [steps[n]]);
      PeakSoFar(rest);
      LastStep(Execute(INIT, rest), steps[n]);
      if Execute(INIT, steps).peak != Execute(INIT, rest).peak {
        k := n + 1;
      }
    }
  }

  lemma NoSteps()
    ensures Execute(INIT, []) == INIT
  {
  }

  lemma PeakSoFar(steps: seq<Step>)
    ensures Execute(INIT, steps).peak >= Execute(INIT, steps).current
  {
    hide Execute;
    Reachable(steps);
  }

  lemma LastStep(s: State, step: Step)
    ensures Execute(s, [step]) == Next(s, step)
    ensures Next(s, step).peak == s.peak || Next(s, step).peak == Next(s, step).current
    ensures s.peak >= s.current ==> Next(s, step).peak >= s.peak && Next(s, step).peak >= Next(s, step).current
  {
    RunOne(Machine(), s, step);
  }

  function CountAdds(steps: seq<Step>): nat {
    if steps == [] then 0 else (if steps[0].Add? then 1 else 0) + CountAdds(steps[1..])
  }

  /** Connections are counted once each, and the latest one is the one its device has. */
  lemma {:induction false} ConnectionsAreCounted(s: State, steps: seq<Step>, device: DeviceId)
    ensures Execute(s, steps).total == s.total + CountAdds(steps)
    ensures var s' := Execute(s, steps + [Add(device)]);
      device in s'.clients && s'.clients[device] == s.total + CountAdds(steps)
    decreases |steps|
  {
    hide Max;
    if steps == [] {
      assert [] + [Add(device)] == [Add(device)];
      LastStep(s, Add(device));
    } else {
      ConnectionsAreCounted(Next(s, steps[0]), steps[1..], device);
      assert (steps + [Add(device)])[1..] == steps[1..] + [Add(device)];
    }
  }

  /** A step closes nobody but the client it names, or the one that its device has registered. */
  lemma ClosesNobodyElse(s: State, step: Step, client: nat)
    requires client !in s.closed && client in Next(s, step).closed
    ensures step == Close(client) || (!step.Close? && step.device in s.clients && s.clients[step.device] == client)
  {
  }

  // ---- Removals by device ----

  /** Whoever a device has registered after these steps was so before them unless they add the device; then it is newer
      than everybody of before. */
  lemma {:induction false} RegisteredSince(s: State, steps: seq<Step>, device: DeviceId)
    ensures var s' := Execute(s, steps);
      && s'.total >= s.total
      && (device in s'.clients ==>
        if Add(device) in steps then s'.clients[device] >= s.total
        else device in s.clients && s'.clients[device] == s.clients[device])
    decreases |steps|
  {
    if steps != [] {
      assert Add(device) in steps <==> steps[0] == Add(device) || Add(device) in steps[1..];
      RegisteredSince(Next(s, steps[0]), steps[1..], device);
    }
  }

  /** A heartbeat check removes by device what it had found silent, after any steps in between: its removal closes the
      very client it had found, if that is still registered, exactly when the device was not added again; otherwise it
      closes a client that connected after the check had looked. */
  lemma SweepClosesWhatItFound(before: seq<Step>, between: seq<Step>, device: DeviceId)
    requires device in Execute(INIT, before).clients
    ensures var found := Execute(INIT, before);
      var s := Execute(INIT, before + between);
      device in s.clients ==>
        && s.clients[device] in Next(s, Remove(device)).closed
        && (s.clients[device] == found.clients[device] <==> Add(device) !in between)
        && (Add(device) in between ==> s.clients[device] >= found.total)
  {
    hide Execute;
    Reachable(before);
    ExecuteAppend(INIT, before, between);
    RegisteredSince(Execute(INIT, before), between, device);
  }

  // ---- The limit on clients ----

  function Admits(maxClients: int, s: State): bool {
    maxClients <= 0 || s.current < maxClients
  }

  /** The test as such, against the registry of the same moment: without a limit it always passes; with one it passes as if there were one client more for each
      replacement so far, and so it compares the registry with the limit if and only if no client was ever replaced. */
  lemma LimitIsExactIffNeverReplaced(steps: seq<Step>)
    ensures var s := Execute(INIT, steps);
      && (forall m :: m <= 0 ==> Admits(m, s))
      && (forall m :: m > 0 ==> (Admits(m, s) <==> |s.clients| + s.replaced < m))
      && ((forall m :: m > 0 ==> (Admits(m, s) <==> |s.clients| < m)) <==> s.replaced == 0)
  {
    hide Execute;
    EveryRun(steps);
    var s := Execute(INIT, steps);
    if s.replaced > 0 {
      assert !Admits(s.current, s) && |s.clients| < s.current;
    }
  }

  function Reconnects(device: DeviceId, n: nat): seq<Step> {
    if n == 0 then [] else Reconnects(device, n - 1) + [Add(device)]
  }

  lemma {:induction false} OneDeviceReconnects(device: DeviceId, n: nat)
    requires n > 0
    ensures var s := Execute(INIT, Reconnects(device, n));
      s.clients.Keys == {device} && s.current == n
  {
    ExecuteAppend(INIT, Reconnects(device, n - 1), [Add(device)]);
    LastStep(Execute(INIT, Reconnects(device, n - 1)), Add(device));
    if n > 1 { OneDeviceReconnects(device, n - 1); }
  }

  /** One device that reconnects and then leaves while no limit is set uses up any limit set afterwards: nobody is
      connected, and everybody is refused. */
  lemma EmptyRegistryRefuses(maxClients: int, device: DeviceId)
    requires maxClients > 0
    ensures var s := Execute(INIT, Reconnects(device, maxClients + 1) + [Remove(device)]);
      s.clients == map[] && !Admits(maxClients, s)
  {
    OneDeviceReconnects(device, maxClients + 1);
    ExecuteAppend(INIT, Reconnects(device, maxClients + 1), [Remove(device)]);
    LastStep(Execute(INIT, Reconnects(device, maxClients + 1)), Remove(device));
  }

  // ---- The server's own objects and methods ----

  class Client {
    const id: nat
    var isClosed: bool
    var lastActive: int

    constructor (id: nat, now: int)
      ensures this.id == id && !isClosed && lastActive == now
    {
      this.id, isClosed, lastActive := id, false, now;
    }

    method SetClosed()
      modifies `isClosed
      ensures isClosed
    {
      isClosed := true;
    }
  }

  class Registry {
    var clients: map<DeviceId, Client>
    var totalConnections: nat
    var totalDisconnections: nat
    var currentConnections: int
    var peakConnections: int
    ghost var all: seq<Client>

    /** The objects are in the state that the machine says. */
    ghost predicate Represents(s: State)
      reads this, all
    {
      && |all| == s.total == totalConnections
      && totalDisconnections == s.disconnections && currentConnections == s.current && peakConnections == s.peak
      && (forall i :: 0 <= i < |all| ==> all[i].id == i && (all[i].isClosed <==> i in s.closed))
      && (forall c :: c in s.closed ==> c < s.total)
      && clients.Keys == s.clients.Keys
      && forall d :: d in clients ==> s.clients[d] < |all| && clients[d] == all[s.clients[d]]
    }

    constructor ()
      ensures Represents(INIT) && all == []
    {
      clients := map[];
      totalConnections, totalDisconnections, currentConnections, peakConnections := 0, 0, 0, 0;
      all := [];
    }

    method AddClient(device: DeviceId, client: Client, ghost s: State)
      requires Represents(s) && client.id == |all| && !client.isClosed
      modifies this, if device in clients then {clients[device]} else {}
      ensures all == old(all) + [client]
      ensures Represents(Next(s, Add(device)))
    {
      ghost var mid := s;
      if device in clients {
        mid := CloseOld(s, device);
        CloseExisting(device, s);
      }
      RegisterNew(device, client, mid);
    }

    method CloseExisting(device: DeviceId, ghost s: State)
      requires device in clients && Represents(s)
      modifies `totalDisconnections, clients[device]
      ensures Represents(CloseOld(s, device))
    {
      var oldClient := clients[device];
      oldClient.SetClosed();
      totalDisconnections := totalDisconnections + 1;
    }

    method RegisterNew(device: DeviceId, client: Client, ghost s: State)
      requires Represents(s) && client.id == |all| && !client.isClosed
      modifies this
      ensures all == old(all) + [client]
      ensures Represents(Register(s, device))
    {
      clients := clients[device := client];
      all := all + [client];
      totalConnections := totalConnections + 1;
      currentConnections := currentConnections + 1;
      var current, peak := currentConnections, peakConnections;
      if current > peak {
        peakConnections := current;
      }
    }

    method RemoveClient(device: DeviceId, ghost s: State)
      requires Represents(s)
      modifies this, if device in clients then {clients[device]} else {}
      ensures all == old(all) && clients == old(clients) - {device}
      ensures Represents(Next(s, Remove(device)))
    {
      if device in clients {
        var client := clients[device];
        client.SetClosed();
        clients := clients - {device};
        totalDisconnections := totalDisconnections + 1;
        currentConnections := currentConnections - 1;
      }
    }

    /** One heartbeat check: the devices that were silent for two intervals, in whatever order they are found, are
        removed one by one; clients that are closed already are passed over. */
    method CheckHeartbeat(now: int, ghost s: State) returns (toDisconnect: seq<DeviceId>)
      requires Represents(s)
      modifies this, all
      ensures forall d :: d in toDisconnect <==>
        old(d in clients && !clients[d].isClosed && clients[d].lastActive < now - 20_000_000_000)
      ensures forall i, j :: 0 <= i < j < |toDisconnect| ==> toDisconnect[i] != toDisconnect[j]
      ensures all == old(all) && Represents(Execute(s, Removals(toDisconnect)))
    {
      hide Represents;
      hide Execute;
      hide Removals;
      hide Next;
      toDisconnect := FindTimedOut(now);
      NothingRemoved(s);
      assert toDisconnect[..0] == [];
      for i := 0 to |toDisconnect|
        invariant all == old(all)
        invariant Represents(Execute(s, Removals(toDisconnect[..i])))
      {
        OneMoreRemoval(s, toDisconnect, i);
        RegisteredAreKnown(Execute(s, Removals(toDisconnect[..i])));
        RemoveClient(toDisconnect[i], Execute(s, Removals(toDisconnect[..i])));
      }
      assert toDisconnect[..|toDisconnect|] == toDisconnect;
    }

    lemma RegisteredAreKnown(s: State)
      requires Represents(s)
      ensures forall d :: d in clients ==> clients[d] in all
    {
    }

    /** The first phase: a snapshot of the devices to remove. */
    method FindTimedOut(now: int) returns (found: seq<DeviceId>)
      ensures forall d :: d in found <==> d in clients && TimedOut(clients[d], now)
      ensures forall i, j :: 0 <= i < j < |found| ==> found[i] != found[j]
    {
      found := [];
      var threshold := now - 2 * HEARTBEAT_INTERVAL;
      var devices := clients.Keys;
      while devices != {}
        invariant devices <= clients.Keys
        invariant forall d :: d in found <==> d in clients && d !in devices && TimedOut(clients[d], now)
        invariant forall i, j :: 0 <= i < j < |found| ==> found[i] != found[j]
        decreases devices
      {
        var d :| d in devices;
        devices := devices - {d};
        if !clients[d].isClosed && clients[d].lastActive < threshold {
          found := found + [d];
        }
      }
    }
  }

  ghost predicate TimedOut(client: Client, now: int)
    reads client
  {
    !client.isClosed && client.lastActive < now - 2 * HEARTBEAT_INTERVAL
  }

  function Removals(devices: seq<DeviceId>): seq<Step> {
    if devices == [] then [] else Removals(devices[..|devices| - 1]) + [Remove(devices[|devices| - 1])]
  }

  lemma NothingRemoved(s: State)
    ensures Execute(s, Removals([])) == s
  {
  }

  lemma OneMoreRemoval(s: State, devices: seq<DeviceId>, i: nat)
    requires i < |devices|
    ensures Execute(s, Removals(devices[..i + 1])) == Next(Execute(s, Removals(devices[..i])), Remove(devices[i]))
  {
    hide Next;
    assert devices[..i + 1][..i] == devices[..i];
    ExecuteAppend(s, Removals(devices[..i]), [Remove(devices[i])]);
    LastStep(Execute(s, Removals(devices[..i])), Remove(devices[i]));
  }
}
