/** The compare-and-swap rate limiter that guards new connections. A connection attempt reads the clock, loads the
    time of the last accepted one and then tries to swap its own time in; attempts interleave at these steps and their
    clocks may show anything. The broadcast limiter is the same machine over another word. */
module RateLimit {
  import opened Runs

  const SECOND: int := 1_000_000_000

  /** A limit of zero or less switches the check off. */
  datatype Settings = Settings(maxClients: int, maxPerSecond: int)

  function MinInterval(cfg: Settings): int
    requires cfg.maxPerSecond > 0
  {
    SECOND / cfg.maxPerSecond
  }

  /** Where one attempt stands. A loaded attempt keeps what it read, and how many attempts had been accepted then. */
  datatype Attempt =
    | Arrived(now: int)
    | Loaded(now: int, last: int, acceptedThen: nat)
    | TooManyClients
    | Limited
    | Accepted

  /** The shared words, the attempts in order of arrival, and the times the accepted ones swapped in. */
  datatype State = State(last: int, clients: int, limited: nat, attempts: seq<Attempt>, stamps: seq<int>)

  datatype Step =
    | Arrive(now: int)   // the client limit is checked and the clock read
    | Load(k: nat)       // the last time is read and the interval tested
    | Swap(k: nat)       // the compare-and-swap
    | Clients(n: int)    // connections come and go elsewhere

  function Init(clients: int): State {
    State(0, clients, 0, [], [])
  }

  function Arrival(cfg: Settings, clients: int, now: int): Attempt {
    if cfg.maxClients > 0 && clients >= cfg.maxClients then TooManyClients
    else if cfg.maxPerSecond <= 0 then Accepted
    else Arrived(now)
  }

  function Next(cfg: Settings, s: State, step: Step): State {
    match step
    case Arrive(now) => s.(attempts := s.attempts + [Arrival(cfg, s.clients, now)])
    case Load(k) =>
      if k >= |s.attempts| || !s.attempts[k].Arrived? || cfg.maxPerSecond <= 0 then s
      else if s.attempts[k].now - s.last < MinInterval(cfg) then
        s.(attempts := s.attempts[k := Limited], limited := s.limited + 1)
      else s.(attempts := s.attempts[k := Loaded(s.attempts[k].now, s.last, |s.stamps|)])
    case Swap(k) =>
      if k >= |s.attempts| || !s.attempts[k].Loaded? then s
      else if s.last == s.attempts[k].last then
        s.(attempts := s.attempts[k := Accepted], last := s.attempts[k].now, stamps := s.stamps + [s.attempts[k].now])
      else s.(attempts := s.attempts[k := Limited], limited := s.limited + 1)
    case Clients(n) => s.(clients := n)
  }

  function Machine(cfg: Settings): (State, Step) -> State {
    (s: State, step: Step) => Next(cfg, s, step)
  }

  function Execute(cfg: Settings, s: State, steps: seq<Step>): State {
    Run(Machine(cfg), s, steps)
  }

  // ---- Spacing ----

  /** Each stamp lies at least the interval after the one before; the first one after time zero. */
  ghost predicate Spaced(stamps: seq<int>, interval: int) {
    && (stamps != [] ==> stamps[0] >= interval)
    && forall i :: 0 < i < |stamps| ==> stamps[i] - stamps[i - 1] >= interval
  }

  ghost predicate Inv(cfg: Settings, s: State)
    requires cfg.maxPerSecond > 0
  {
    && s.last == (if s.stamps == [] then 0 else s.stamps[|s.stamps| - 1])
    && Spaced(s.stamps, MinInterval(cfg))
    && forall k :: 0 <= k < |s.attempts| && s.attempts[k].Loaded? ==> LoadedWell(cfg, s, s.attempts[k])
  }

  /** What a loaded attempt read passed its test, and is still there unless another attempt was accepted since. */
  ghost predicate LoadedWell(cfg: Settings, s: State, a: Attempt)
    requires cfg.maxPerSecond > 0 && a.Loaded?
  {
    && a.now - a.last >= MinInterval(cfg)
    && a.acceptedThen <= |s.stamps|
    && (a.acceptedThen == |s.stamps| ==> a.last == s.last)
  }

  lemma NextKeepsInv(cfg: Settings, s: State, step: Step)
    requires cfg.maxPerSecond > 0 && Inv(cfg, s)
    ensures Inv(cfg, Next(cfg, s, step))
  {
    hide MinInterval;
    var s' := Next(cfg, s, step);
    forall k | 0 <= k < |s'.attempts| && s'.attempts[k].Loaded? ensures LoadedWell(cfg, s', s'.attempts[k]) {
      if k < |s.attempts| && s.attempts[k].Loaded? {
        assert LoadedWell(cfg, s, s.attempts[k]);
      }
    }
    if step.Swap? && step.k < |s.attempts| && s.attempts[step.k].Loaded? {
      assert LoadedWell(cfg, s, s.attempts[step.k]);
    }
  }

  lemma {:induction false} ExecuteKeepsInv(cfg: Settings, s: State, steps: seq<Step>)
    requires cfg.maxPerSecond > 0 && Inv(cfg, s)
    ensures Inv(cfg, Execute(cfg, s, steps))
    decreases |steps|
  {
    hide Inv;
    hide Next;
    if steps != [] {
      NextKeepsInv(cfg, s, steps[0]);
      ExecuteKeepsInv(cfg, Next(cfg, s, steps[0]), steps[1..]);
    }
  }

  /** Under every interleaving and whatever the clocks show, accepted times are at least the interval apart. */
  lemma AcceptedAreSpaced(cfg: Settings, clients: int, steps: seq<Step>)
    requires cfg.maxPerSecond > 0
    ensures Spaced(Execute(cfg, Init(clients), steps).stamps, MinInterval(cfg))
  {
    ExecuteKeepsInv(cfg, Init(clients), steps);
  }

  /** An attempt loses its swap only to another one that was accepted since it loaded, so a contended slot is never
      lost to everybody. */
  lemma SwapLosesOnlyToAcceptance(cfg: Settings, clients: int, steps: seq<Step>, k: nat)
    requires cfg.maxPerSecond > 0
    requires var s := Execute(cfg, Init(clients), steps); k < |s.attempts| && s.attempts[k].Loaded?
    ensures var s := Execute(cfg, Init(clients), steps);
      var s' := Next(cfg, s, Swap(k));
      && (s.attempts[k].acceptedThen == |s.stamps| ==> s'.attempts[k] == Accepted)
      && (s'.attempts[k] == Limited ==> s.attempts[k].acceptedThen < |s.stamps|)
  {
    ExecuteKeepsInv(cfg, Init(clients), steps);
    var s := Execute(cfg, Init(clients), steps);
    assert LoadedWell(cfg, s, s.attempts[k]);
  }

  /** How many attempts ended this way. */
  function Tally(attempts: seq<Attempt>, outcome: Attempt): nat {
    if attempts == [] then 0 else (if attempts[0] == outcome then 1 else 0) + Tally(attempts[1..], outcome)
  }

  /** The counters agree with what happened to each attempt. */
  ghost predicate Counted(s: State) {
    Tally(s.attempts, Limited) == s.limited && Tally(s.attempts, Accepted) == |s.stamps|
  }

  lemma {:induction false} OutcomeCounts(attempts: seq<Attempt>, k: nat, after: Attempt, outcome: Attempt)
    requires k < |attempts| && attempts[k] != outcome
    ensures Tally(attempts[k := after], outcome) == Tally(attempts, outcome) + (if after == outcome then 1 else 0)
  {
    if k == 0 {
      assert attempts[k := after][1..] == attempts[1..];
    } else {
      OutcomeCounts(attempts[1..], k - 1, after, outcome);
      assert attempts[k := after][1..] == attempts[1..][k - 1 := after];
    }
  }

  lemma {:induction false} ArrivalCounts(attempts: seq<Attempt>, a: Attempt, outcome: Attempt)
    ensures Tally(attempts + [a], outcome) == Tally(attempts, outcome) + (if a == outcome then 1 else 0)
  {
    if attempts == [] {
      assert ([a])[1..] == [];
    } else {
      ArrivalCounts(attempts[1..], a, outcome);
      assert (attempts + [a])[1..] == attempts[1..] + [a];
    }
  }

  lemma NextKeepsCounted(cfg: Settings, s: State, step: Step)
    requires cfg.maxPerSecond > 0 && Counted(s)
    ensures Counted(Next(cfg, s, step))
  {
    hide MinInterval;
    hide Tally;
    match step
    case Clients(n) =>
    case Arrive(now) =>
      ArrivalCounts(s.attempts, Arrival(cfg, s.clients, now), Limited);
      ArrivalCounts(s.attempts, Arrival(cfg, s.clients, now), Accepted);
    case _ =>
      var s' := Next(cfg, s, step);
      if s' != s {
        OutcomeCounts(s.attempts, step.k, s'.attempts[step.k], Limited);
        OutcomeCounts(s.attempts, step.k, s'.attempts[step.k], Accepted);
      }
  }

  /** Every run: the rate-limited counter and the number of stamps count the attempts that ended that way, each once. */
  lemma {:induction false} AttemptsAreCounted(cfg: Settings, s: State, steps: seq<Step>)
    requires cfg.maxPerSecond > 0 && Counted(s)
    ensures Counted(Execute(cfg, s, steps))
    decreases |steps|
  {
    hide Counted;
    hide Next;
    if steps != [] {
      NextKeepsCounted(cfg, s, steps[0]);
      AttemptsAreCounted(cfg, Next(cfg, s, steps[0]), steps[1..]);
    }
  }

  // ---- Counting ----

  /** How many stamps lie in the half-open window. */
  function CountIn(stamps: seq<int>, lo: int, hi: int): nat {
    if stamps == [] then 0
    else
      var last := stamps[|stamps| - 1];
      CountIn(stamps[..|stamps| - 1], lo, hi) + (if lo <= last < hi then 1 else 0)
  }

  lemma SpacedPrefix(stamps: seq<int>, interval: int)
    requires stamps != [] && Spaced(stamps, interval)
    ensures Spaced(stamps[..|stamps| - 1], interval)
  {
  }

  lemma {:induction false} NoneBefore(stamps: seq<int>, interval: int, lo: int, hi: int)
    requires interval >= 0 && Spaced(stamps, interval)
    requires stamps != [] ==> stamps[|stamps| - 1] < lo
    ensures CountIn(stamps, lo, hi) == 0
  {
    if stamps != [] {
      SpacedPrefix(stamps, interval);
      NoneBefore(stamps[..|stamps| - 1], interval, lo, hi);
    }
  }

  lemma {:induction false} CountUpToLast(stamps: seq<int>, interval: int, lo: int, hi: int)
    requires interval >= 0 && Spaced(stamps, interval)
    requires stamps != [] && stamps[|stamps| - 1] >= lo
    ensures (CountIn(stamps, lo, hi) - 1) * interval <= stamps[|stamps| - 1] - lo
  {
    var rest := stamps[..|stamps| - 1];
    SpacedPrefix(stamps, interval);
    if rest == [] || rest[|rest| - 1] < lo {
      NoneBefore(rest, interval, lo, hi);
    } else {
      CountUpToLast(rest, interval, lo, hi);
      var n := CountIn(rest, lo, hi);
      assert n * interval == (n - 1) * interval + interval;
      assert CountIn(stamps, lo, hi) == n || CountIn(stamps, lo, hi) == n + 1;
    }
  }

  lemma {:induction false} CountInWindow(stamps: seq<int>, interval: int, lo: int, hi: int)
    requires interval >= 0 && Spaced(stamps, interval) && CountIn(stamps, lo, hi) > 0
    ensures (CountIn(stamps, lo, hi) - 1) * interval < hi - lo
  {
    var last := stamps[|stamps| - 1];
    if lo <= last < hi {
      CountUpToLast(stamps, interval, lo, hi);
    } else {
      SpacedPrefix(stamps, interval);
      CountInWindow(stamps[..|stamps| - 1], interval, lo, hi);
    }
  }

  /** The number of attempts accepted with a time in the second that starts at `lo`. */
  function AcceptedIn(cfg: Settings, clients: int, steps: seq<Step>, lo: int): nat {
    CountIn(Execute(cfg, Init(clients), steps).stamps, lo, lo + SECOND)
  }

  /** However attempts interleave, the acceptances of any one second fit into it at their spacing. */
  lemma SecondIsBounded(cfg: Settings, clients: int, steps: seq<Step>, lo: int)
    requires cfg.maxPerSecond > 0
    ensures AcceptedIn(cfg, clients, steps, lo) > 0 ==>
      (AcceptedIn(cfg, clients, steps, lo) - 1) * MinInterval(cfg) < SECOND
  {
    AcceptedAreSpaced(cfg, clients, steps);
    var stamps := Execute(cfg, Init(clients), steps).stamps;
    if CountIn(stamps, lo, lo + SECOND) > 0 {
      CountInWindow(stamps, MinInterval(cfg), lo, lo + SECOND);
    }
  }

  // ---- When the limit is kept ----

  ghost predicate KeepsLimit(cfg: Settings) {
    forall clients, steps, lo :: AcceptedIn(cfg, clients, steps, lo) <= cfg.maxPerSecond
  }

  /** The configured number per second is a true maximum exactly when it divides the nanoseconds of a second: the
      interval is rounded down, so any other limit admits one attempt too many. */
  lemma LimitIsKeptIffItDivides(cfg: Settings)
    requires cfg.maxPerSecond > 0
    ensures KeepsLimit(cfg) <==> 1_000_000_000 % cfg.maxPerSecond == 0
  {
    if SECOND % cfg.maxPerSecond == 0 {
      forall clients, steps, lo ensures AcceptedIn(cfg, clients, steps, lo) <= cfg.maxPerSecond {
        SecondIsBounded(cfg, clients, steps, lo);
        FitsWhenDividing(cfg, AcceptedIn(cfg, clients, steps, lo));
      }
    } else {
      var steps := EvenlySpaced(cfg, SECOND, cfg.maxPerSecond + 1);
      RoundedDown(cfg);
      EvenlySpacedIsAccepted(cfg, SECOND, cfg.maxPerSecond + 1);
      assert AcceptedIn(cfg, 0, steps, SECOND) > cfg.maxPerSecond;
    }
  }

  lemma FitsWhenDividing(cfg: Settings, n: nat)
    requires cfg.maxPerSecond > 0 && SECOND % cfg.maxPerSecond == 0
    requires n > 0 ==> (n - 1) * MinInterval(cfg) < SECOND
    ensures n <= cfg.maxPerSecond
  {
    var interval := MinInterval(cfg);
    assert cfg.maxPerSecond * interval == SECOND;
  }

  lemma RoundedDown(cfg: Settings)
    requires cfg.maxPerSecond > 0 && SECOND % cfg.maxPerSecond != 0
    ensures cfg.maxPerSecond * MinInterval(cfg) < SECOND
  {
  }

  /** The schedule in which `n` attempts come one after the other, each exactly the interval after the one before. */
  function EvenlySpaced(cfg: Settings, first: int, n: nat): seq<Step>
    requires cfg.maxPerSecond > 0
  {
    if n == 0 then []
    else EvenlySpaced(cfg, first, n - 1) + [Arrive(first + (n - 1) * MinInterval(cfg)), Load(n - 1), Swap(n - 1)]
  }

  /** What that schedule leads to when no attempt is refused for the number of clients. */
  ghost predicate AllAccepted(cfg: Settings, s: State, first: int, n: nat)
    requires cfg.maxPerSecond > 0
  {
    && s.clients == 0 && |s.attempts| == n && |s.stamps| == n
    && (forall i :: 0 <= i < n ==> s.stamps[i] == first + i * MinInterval(cfg))
    && s.last == (if n == 0 then 0 else first + (n - 1) * MinInterval(cfg))
  }

  lemma ThreeSteps(cfg: Settings, s: State, a: Step, b: Step, c: Step)
    ensures Execute(cfg, s, [a, b, c]) == Next(cfg, Next(cfg, Next(cfg, s, a), b), c)
  {
    RunTwo(Machine(cfg), s, a, b);
    RunAppend(Machine(cfg), s, [a, b], [c]);
    RunOne(Machine(cfg), Next(cfg, Next(cfg, s, a), b), c);
    assert [a, b] + [c] == [a, b, c];
  }

  lemma {:induction false} EvenRun(cfg: Settings, first: int, n: nat)
    requires cfg.maxPerSecond > 0 && first >= MinInterval(cfg)
    ensures AllAccepted(cfg, Execute(cfg, Init(0), EvenlySpaced(cfg, first, n)), first, n)
    decreases n
  {
    if n > 0 {
      EvenRun(cfg, first, n - 1);
      var s := Execute(cfg, Init(0), EvenlySpaced(cfg, first, n - 1));
      var now := first + (n - 1) * MinInterval(cfg);
      RunAppend(Machine(cfg), Init(0), EvenlySpaced(cfg, first, n - 1), [Arrive(now), Load(n - 1), Swap(n - 1)]);
      ThreeSteps(cfg, s, Arrive(now), Load(n - 1), Swap(n - 1));
      OneMore(cfg, s, first, n - 1);
    }
  }

  /** A lone attempt that comes the interval after the last accepted one is accepted. */
  lemma OneMore(cfg: Settings, s: State, first: int, n: nat)
    requires cfg.maxPerSecond > 0 && first >= MinInterval(cfg) && AllAccepted(cfg, s, first, n)
    ensures var now := first + n * MinInterval(cfg);
      AllAccepted(cfg, Next(cfg, Next(cfg, Next(cfg, s, Arrive(now)), Load(n)), Swap(n)), first, n + 1)
  {
    hide MinInterval;
    if n > 0 {
      assert n * MinInterval(cfg) == (n - 1) * MinInterval(cfg) + MinInterval(cfg);
    }
  }

  lemma EvenlySpacedIsAccepted(cfg: Settings, first: int, n: nat)
    requires cfg.maxPerSecond > 0 && first >= MinInterval(cfg)
    requires n > 0 ==> (n - 1) * MinInterval(cfg) < SECOND
    ensures AcceptedIn(cfg, 0, EvenlySpaced(cfg, first, n), first) == n
  {
    EvenRun(cfg, first, n);
    AllInWindow(Execute(cfg, Init(0), EvenlySpaced(cfg, first, n)).stamps, first, MinInterval(cfg));
  }

  lemma {:induction false} AllInWindow(stamps: seq<int>, first: int, interval: int)
    requires forall i :: 0 <= i < |stamps| ==> stamps[i] == first + i * interval
    requires interval >= 0 && (|stamps| > 0 ==> (|stamps| - 1) * interval < SECOND)
    ensures CountIn(stamps, first, first + SECOND) == |stamps|
  {
    if stamps != [] {
      var n := |stamps| - 1;
      assert n > 0 ==> n * interval == (n - 1) * interval + interval;
      AllInWindow(stamps[..n], first, interval);
      assert n * interval >= 0;
    }
  }

  // ---- Single attempts ----

  /** One attempt that nothing interrupts: too many clients at or above their limit, if there is one; otherwise accepted,
      without a limit on the rate always, and with one exactly when the interval has passed since the last accepted one,
      whose place it takes. */
  lemma LoneAttempt(cfg: Settings, s: State, now: int)
    ensures var k := |s.attempts|;
      var s' := Execute(cfg, s, [Arrive(now), Load(k), Swap(k)]);
      && |s'.attempts| == k + 1 && s'.attempts[..k] == s.attempts && s'.clients == s.clients
      && (if 0 < cfg.maxClients <= s.clients then
            s'.attempts[k] == TooManyClients && s'.last == s.last && s'.limited == s.limited
          else if cfg.maxPerSecond <= 0 then
            s'.attempts[k] == Accepted && s'.last == s.last && s'.limited == s.limited
          else if now - s.last >= 1_000_000_000 / cfg.maxPerSecond then
            s'.attempts[k] == Accepted && s'.last == now && s'.limited == s.limited && s'.stamps == s.stamps + [now]
          else
            s'.attempts[k] == Limited && s'.last == s.last && s'.limited == s.limited + 1 && s'.stamps == s.stamps)
  {
    hide Execute;
    var k := |s.attempts|;
    ThreeSteps(cfg, s, Arrive(now), Load(k), Swap(k));
  }

  ghost predicate NeverLimited(cfg: Settings, attempts: seq<Attempt>) {
    forall k :: 0 <= k < |attempts| ==> attempts[k] == Accepted || (attempts[k] == TooManyClients && cfg.maxClients > 0)
  }

  /** Without a limit on the rate every attempt of every run is accepted unless there are too many clients. */
  lemma {:induction false} NoRateLimit(cfg: Settings, s: State, steps: seq<Step>)
    requires cfg.maxPerSecond <= 0 && NeverLimited(cfg, s.attempts)
    ensures var s' := Execute(cfg, s, steps);
      NeverLimited(cfg, s'.attempts) && s'.limited == s.limited && s'.last == s.last
    decreases |steps|
  {
    if steps != [] {
      NoRateLimit(cfg, Next(cfg, s, steps[0]), steps[1..]);
    }
  }

  // ---- The server's own words and methods ----

  class ConnectionLimiter {
    var maxClients: int
    var enabled: bool
    var maxPerSecond: int
    var minIntervalNs: int
    var currentConnections: int
    var lastConnectionTime: int
    var rateLimitedConnections: nat
    ghost var attempts: seq<Attempt>
    ghost var stamps: seq<int>

    ghost predicate Valid()
      reads this
    {
      enabled ==> maxPerSecond > 0 && minIntervalNs == SECOND / maxPerSecond
    }

    ghost function Config(): Settings
      reads this
    {
      Settings(maxClients, if enabled then maxPerSecond else 0)
    }

    ghost function Abs(): State
      reads this
    {
      State(lastConnectionTime, currentConnections, rateLimitedConnections, attempts, stamps)
    }

    constructor ()
      ensures Valid() && Config() == Settings(0, 0) && Abs() == Init(0)
    {
      maxClients, enabled, maxPerSecond, minIntervalNs := 0, false, 0, 0;
      currentConnections, lastConnectionTime, rateLimitedConnections := 0, 0, 0;
      attempts, stamps := [], [];
    }

    method SetConnectionRateLimit(limit: int)
      requires Valid()
      modifies `enabled, `maxPerSecond, `minIntervalNs
      ensures Valid() && Config() == Settings(maxClients, if limit > 0 then limit else 0)
    {
      if limit <= 0 {
        enabled := false;
        return;
      }
      enabled, maxPerSecond, minIntervalNs := true, limit, SECOND / limit;
    }

    method SetMaxClients(limit: int)
      requires Valid()
      modifies `maxClients
      ensures Valid() && Config() == old(Config()).(maxClients := limit)
    {
      maxClients := limit;
    }

    method CheckMaxClients() returns (ok: bool)
      ensures ok <==> maxClients <= 0 || currentConnections < maxClients
    {
      if maxClients <= 0 { return true; }
      var current := currentConnections;
      return current < maxClients;
    }

    /** The attempt begins: the client limit is checked and the clock read. */
    method Begin(now: int) returns (outcome: Attempt)
      requires Valid()
      modifies `attempts
      ensures Abs() == Next(Config(), old(Abs()), Arrive(now))
      ensures |attempts| == |old(attempts)| + 1 && attempts[|old(attempts)|] == outcome
      ensures outcome == TooManyClients || outcome == Accepted || outcome == Arrived(now)
      ensures outcome == Arrived(now) ==> enabled
    {
      var ok := CheckMaxClients();
      outcome := if !ok then TooManyClients else if !enabled then Accepted else Arrived(now);
      attempts := attempts + [outcome];
    }

    /** The atomic load and the test on what it returned. */
    method LoadLast(ghost k: nat, now: int) returns (last: int, limited: bool)
      requires Valid() && enabled && k < |attempts| && attempts[k] == Arrived(now)
      modifies `rateLimitedConnections, `attempts
      ensures Abs() == Next(Config(), old(Abs()), Load(k))
      ensures attempts[k] == if limited then Limited else Loaded(now, last, |stamps|)
    {
      last := lastConnectionTime;
      limited := now - last < minIntervalNs;
      attempts := attempts[k := if limited then Limited else Loaded(now, last, |stamps|)];
      if limited {
        rateLimitedConnections := rateLimitedConnections + 1;
      }
    }

    /** The compare-and-swap, whatever happened to the word since the load. */
    method TrySwap(ghost k: nat, ghost acceptedThen: nat, now: int, last: int) returns (swapped: bool)
      requires Valid() && k < |attempts| && attempts[k] == Loaded(now, last, acceptedThen)
      modifies `lastConnectionTime, `rateLimitedConnections, `attempts, `stamps
      ensures Abs() == Next(Config(), old(Abs()), Swap(k))
      ensures attempts[k] == if swapped then Accepted else Limited
    {
      swapped := lastConnectionTime == last;
      attempts := attempts[k := if swapped then Accepted else Limited];
      if swapped {
        lastConnectionTime, stamps := now, stamps + [now];
      } else {
        rateLimitedConnections := rateLimitedConnections + 1;
      }
    }

    /** One attempt with nothing in between is the three steps of the machine, one after the other. */
    method CheckConnectionRateLimit(now: int) returns (allowed: bool)
      requires Valid()
      modifies `lastConnectionTime, `rateLimitedConnections, `attempts, `stamps
      ensures var k := |old(attempts)|;
        && Abs() == Execute(Config(), old(Abs()), [Arrive(now), Load(k), Swap(k)])
        && |attempts| == k + 1 && (allowed <==> attempts[k] == Accepted)
      ensures allowed <==>
        && (maxClients <= 0 || currentConnections < maxClients)
        && (enabled ==> now - old(lastConnectionTime) >= 1_000_000_000 / maxPerSecond)
      ensures lastConnectionTime == if allowed && enabled then now else old(lastConnectionTime)
    {
      ghost var k := |attempts|;
      ThreeSteps(Config(), Abs(), Arrive(now), Load(k), Swap(k));
      var outcome := Begin(now);
      if outcome != Arrived(now) { return outcome == Accepted; }
      var last, limited := LoadLast(k, now);
      if limited { return false; }
      allowed := TrySwap(k, |stamps|, now, last);
    }
  }
}
