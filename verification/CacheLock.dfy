/** The readers-writer lock of the output cache. Every read but one kind gives its read lock back: the read that has to
    search the cached events returns without doing so, and asks for the write lock with it when the access time is
    stale. Appends, recoveries and cleanups take the write lock. */
module CacheLock {
  import opened Json
  import opened Runs

  datatype Call = Read(searches: bool, stale: bool) | Write

  /** Where a call stands. */
  datatype Place =
    | WantsRead(searches: bool, stale: bool)
    | Reading(searches: bool, stale: bool)
    | WantsWrite(refresh: bool)
    | NextWriter(refresh: bool)  // its turn: it waits for the readers to leave, and no new one comes in
    | Writing(refresh: bool)
    | Returned(released: bool)

  /** The lock: how many read locks are held, and who is writing or next to; and every call so far. */
  datatype State = State(readers: int, writer: Option<nat>, places: seq<Place>)

  datatype Step = Begin(call: Call) | Move(caller: nat)

  const INIT: State := State(0, None, [])

  /** One step; a call that has to wait stays where it is. */
  function Next(s: State, step: Step): State {
    match step
    case Begin(Read(searches, stale)) => s.(places := s.places + [WantsRead(searches, stale)])
    case Begin(Write) => s.(places := s.places + [WantsWrite(false)])
    case Move(k) => if k < |s.places| then Moved(s, k) else s
  }

  function Moved(s: State, k: nat): State
    requires k < |s.places|
  {
    match s.places[k]
    case WantsRead(searches, stale) =>
      if s.writer == None then At(s, k, Reading(searches, stale)).(readers := s.readers + 1) else s
    case Reading(searches, stale) =>
      if !searches then At(s, k, Returned(true)).(readers := s.readers - 1)
      else if stale then At(s, k, WantsWrite(true))
      else At(s, k, Returned(false))
    case WantsWrite(refresh) =>
      if s.writer == None then At(s, k, NextWriter(refresh)).(writer := Some(k)) else s
    case NextWriter(refresh) => if s.readers == 0 then At(s, k, Writing(refresh)) else s
    case Writing(refresh) => At(s, k, Returned(!refresh)).(writer := None)
    case Returned(_) => s
  }

  function At(s: State, k: nat, p: Place): State
    requires k < |s.places|
  {
    s.(places := s.places[k := p])
  }

  function Machine(): (State, Step) -> State {
    (s: State, step: Step) => Next(s, step)
  }

  function Execute(s: State, steps: seq<Step>): State {
    Run(Machine(), s, steps)
  }

  // ---- What every run keeps ----

  predicate Holds(p: Place) {
    match p
    case Reading(_, _) => true
    case WantsWrite(refresh) => refresh
    case NextWriter(refresh) => refresh
    case Writing(refresh) => refresh
    case Returned(released) => !released
    case _ => false
  }

  function Holders(places: seq<Place>): nat {
    if places == [] then 0 else (if Holds(places[0]) then 1 else 0) + Holders(places[1..])
  }

  /** The lock counts the calls that hold it for reading; at most one has its turn to write, and while it writes nobody
      reads. */
  ghost predicate Inv(s: State) {
    && s.readers == Holders(s.places)
    && (forall k :: 0 <= k < |s.places| && (s.places[k].NextWriter? || s.places[k].Writing?) ==> s.writer == Some(k))
    && (s.writer.Some? ==>
      && s.writer.value < |s.places|
      && (s.places[s.writer.value].NextWriter? || (s.places[s.writer.value].Writing? && s.readers == 0)))
  }

  lemma {:induction false} HoldersAt(places: seq<Place>, k: nat, p: Place)
    requires k < |places|
    ensures Holders(places[k := p])
      == Holders(places) - (if Holds(places[k]) then 1 else 0) + (if Holds(p) then 1 else 0)
  {
    hide Holds;
    if k == 0 {
      assert places[k := p][1..] == places[1..];
    } else {
      HoldersAt(places[1..], k - 1, p);
      assert places[k := p][1..] == places[1..][k - 1 := p];
    }
  }

  lemma {:induction false} OneMore(places: seq<Place>, p: Place)
    ensures Holders(places + [p]) == Holders(places) + (if Holds(p) then 1 else 0)
  {
    hide Holds;
    if places == [] {
      assert [p][1..] == [];
    } else {
      OneMore(places[1..], p);
      assert (places + [p])[1..] == places[1..] + [p];
    }
  }

  lemma {:induction false} SomebodyHolds(places: seq<Place>)
    ensures Holders(places) > 0 <==> exists k :: 0 <= k < |places| && Holds(places[k])
  {
    hide Holds;
    if places != [] {
      SomebodyHolds(places[1..]);
      if k :| 0 <= k < |places| && Holds(places[k]) {
        if k > 0 { assert Holds(places[1..][k - 1]); }
      }
      if k :| 0 <= k < |places[1..]| && Holds(places[1..][k]) {
        assert Holds(places[k + 1]);
      }
    }
  }

  lemma NextKeepsInv(s: State, step: Step)
    requires Inv(s)
    ensures Inv(Next(s, step)) && |Next(s, step).places| >= |s.places|
  {
    hide Holders;
    match step
    case Begin(Read(searches, stale)) => OneMore(s.places, WantsRead(searches, stale));
    case Begin(Write) => OneMore(s.places, WantsWrite(false));
    case Move(k) =>
      if k < |s.places| {
        if s.places[k].Writing? { WriterAlone(s, k); }
        HoldersAt(s.places, k, Moved(s, k).places[k]);
      }
  }

  lemma WriterAlone(s: State, k: nat)
    requires Inv(s) && k < |s.places| && s.places[k].Writing?
    ensures !Holds(s.places[k])
  {
    SomebodyHolds(s.places);
  }

  lemma {:induction false} ExecuteKeepsInv(s: State, steps: seq<Step>)
    requires Inv(s)
    ensures Inv(Execute(s, steps)) && |Execute(s, steps).places| >= |s.places|
    decreases |steps|
  {
    hide Inv;
    hide Next;
    if steps != [] {
      NextKeepsInv(s, steps[0]);
      ExecuteKeepsInv(Next(s, steps[0]), steps[1..]);
    }
  }

  lemma Reachable(steps: seq<Step>)
    ensures Inv(Execute(INIT, steps))
  {
    ExecuteKeepsInv(INIT, steps);
  }

  // ---- A search keeps its read lock ----

  /** A read that searches, from when it has its read lock on. */
  predicate Keeps(p: Place) {
    match p
    case Reading(searches, _) => searches
    case WantsWrite(refresh) => refresh
    case NextWriter(refresh) => refresh
    case Returned(released) => !released
    case _ => false
  }

  /** Asked for the write lock and has not got it. */
  predicate Waiting(p: Place) {
    p.WantsWrite? || p.NextWriter?
  }

  lemma NextKeeps(s: State, step: Step, j: nat)
    requires Inv(s) && j < |s.places| && Keeps(s.places[j])
    ensures Keeps(Next(s, step).places[j])
    ensures forall k :: 0 <= k < |s.places| && Waiting(s.places[k]) ==> Waiting(Next(s, step).places[k])
  {
    hide Holders;
    SomebodyHolds(s.places);
    assert Holds(s.places[j]);
  }

  /** Once a search has its read lock, every call that waits for the write lock waits for ever. */
  lemma {:induction false} WaitsForEver(s: State, steps: seq<Step>, j: nat, k: nat)
    requires Inv(s) && j < |s.places| && Keeps(s.places[j])
    requires k < |s.places| && Waiting(s.places[k])
    ensures k < |Execute(s, steps).places| && Waiting(Execute(s, steps).places[k])
    decreases |steps|
  {
    hide Inv;
    hide Next;
    hide Keeps;
    if steps != [] {
      NextKeepsInv(s, steps[0]);
      NextKeeps(s, steps[0], j);
      WaitsForEver(Next(s, steps[0]), steps[1..], j, k);
    }
  }

  // ---- Otherwise a writer can get through ----

  ghost predicate NobodyKeeps(s: State) {
    forall j :: 0 <= j < |s.places| ==> !Keeps(s.places[j])
  }

  /** The readers leave one after the other. */
  lemma {:induction false} ReadersLeave(s: State, k: nat) returns (steps: seq<Step>)
    requires Inv(s) && NobodyKeeps(s) && k < |s.places| && Waiting(s.places[k])
    ensures var s' := Execute(s, steps);
      && Inv(s') && NobodyKeeps(s') && s'.readers == 0 && s'.writer == s.writer
      && |s'.places| == |s.places| && s'.places[k] == s.places[k]
    decreases s.readers
  {
    hide Holders;
    steps := [];
    if s.readers > 0 {
      SomebodyHolds(s.places);
      var j :| 0 <= j < |s.places| && Holds(s.places[j]);
      var s1 := Next(s, Move(j));
      NextKeepsInv(s, Move(j));
      assert s1 == At(s, j, Returned(true)).(readers := s.readers - 1);
      var rest := ReadersLeave(s1, k);
      steps := [Move(j)] + rest;
      assert steps[0] == Move(j) && steps[1..] == rest;
    }
  }

  lemma ThreeMoves(s: State, k: nat)
    requires k < |s.places| && s.places[k] == WantsWrite(false) && s.writer == None && s.readers == 0
    ensures Execute(s, [Move(k), Move(k), Move(k)]) == At(s, k, Returned(true))
  {
    var s1 := Next(s, Move(k));
    var s2 := Next(s1, Move(k));
    RunTwo(Machine(), s, Move(k), Move(k));
    RunAppend(Machine(), s, [Move(k), Move(k)], [Move(k)]);
    RunOne(Machine(), s2, Move(k));
    assert [Move(k), Move(k)] + [Move(k)] == [Move(k), Move(k), Move(k)];
    assert s.places[k := NextWriter(false)][k := Writing(false)][k := Returned(true)] == s.places[k := Returned(true)];
  }

  /** Whoever has its turn writes and returns. */
  lemma WriterLeaves(s: State, w: nat) returns (steps: seq<Step>)
    requires Inv(s) && NobodyKeeps(s) && s.readers == 0 && s.writer == Some(w)
    ensures Execute(s, steps) == At(s, w, Returned(true)).(writer := None)
  {
    hide Holders;
    if s.places[w].Writing? {
      WriterAlone(s, w);
      steps := [Move(w)];
      RunOne(Machine(), s, Move(w));
    } else {
      steps := [Move(w), Move(w)];
      RunTwo(Machine(), s, Move(w), Move(w));
      assert s.places[w := Writing(false)][w := Returned(true)] == s.places[w := Returned(true)];
    }
  }

  lemma GetsThrough(s: State, k: nat) returns (steps: seq<Step>)
    requires Inv(s) && NobodyKeeps(s) && k < |s.places| && Waiting(s.places[k])
    ensures k < |Execute(s, steps).places| && Execute(s, steps).places[k] == Returned(true)
  {
    hide Inv;
    steps := ReadersLeave(s, k);
    var s1 := Execute(s, steps);
    if s1.writer.Some? {
      TurnIsOnes(s1);
      var more := WriterLeaves(s1, s1.writer.value);
      RunAppend(Machine(), s, steps, more);
      steps := steps + more;
    }
    var s2 := Execute(s, steps);
    if s2.places[k] != Returned(true) {
      OutOfTurn(s1, k);
      ThreeMoves(s2, k);
      RunAppend(Machine(), s, steps, [Move(k), Move(k), Move(k)]);
      steps := steps + [Move(k), Move(k), Move(k)];
    }
  }

  lemma TurnIsOnes(s: State)
    requires Inv(s) && s.writer.Some?
    ensures s.writer.value < |s.places|
  {
  }

  lemma OutOfTurn(s: State, k: nat)
    requires Inv(s) && NobodyKeeps(s) && k < |s.places| && Waiting(s.places[k]) && s.writer != Some(k)
    ensures s.places[k] == WantsWrite(false)
  {
    hide Holders;
    assert !Keeps(s.places[k]);
  }

  /** After any run, a call that waits for the write lock, an output's append for one, can still return if and only if no
      read has searched the cached events so far. */
  lemma WriterReturnsIffNobodySearched(steps: seq<Step>, k: nat)
    requires k < |Execute(INIT, steps).places| && Waiting(Execute(INIT, steps).places[k])
    ensures var s := Execute(INIT, steps);
      (exists more :: k < |Execute(s, more).places| && Execute(s, more).places[k].Returned?) <==> NobodyKeeps(s)
  {
    hide Execute;
    hide Inv;
    hide Keeps;
    Reachable(steps);
    var s := Execute(INIT, steps);
    if NobodyKeeps(s) {
      var more := GetsThrough(s, k);
    } else {
      var j :| 0 <= j < |s.places| && Keeps(s.places[j]);
      forall more ensures k < |Execute(s, more).places| && Waiting(Execute(s, more).places[k]) {
        WaitsForEver(s, more, j, k);
      }
    }
  }

  /** One read that searches is enough, and nothing that happens later helps: from then on no output is ever appended. */
  lemma OneSearchIsEnough(before: seq<Step>, after: seq<Step>, stale: bool)
    requires Execute(INIT, before).writer == None
    ensures var k := |Execute(INIT, before).places|;
      var s := Execute(INIT, before + [Begin(Read(true, stale)), Move(k), Move(k), Begin(Write)] + after);
      k + 1 < |s.places| && Keeps(s.places[k]) && Waiting(s.places[k + 1])
  {
    hide Run;
    hide Next;
    hide Keeps;
    hide Inv;
    var s := Execute(INIT, before);
    var k := |s.places|;
    var mid := [Begin(Read(true, stale)), Move(k), Move(k), Begin(Write)];
    RunFour(Machine(), s, Begin(Read(true, stale)), Move(k), Move(k), Begin(Write));
    SearchAndWrite(s, stale);
    RunAppend(Machine(), INIT, before, mid);
    RunAppend(Machine(), INIT, before + mid, after);
    Reachable(before + mid);
    var s1 := Execute(INIT, before + mid);
    WaitsForEver(s1, after, k, k + 1);
    KeepsForEver(s1, after, k);
  }

  lemma SearchAndWrite(s: State, stale: bool)
    requires s.writer == None
    ensures var k := |s.places|;
      var s' := Next(Next(Next(Next(s, Begin(Read(true, stale))), Move(k)), Move(k)), Begin(Write));
      |s'.places| == k + 2 && Keeps(s'.places[k]) && Waiting(s'.places[k + 1])
  {
  }

  lemma {:induction false} KeepsForEver(s: State, steps: seq<Step>, j: nat)
    requires Inv(s) && j < |s.places| && Keeps(s.places[j])
    ensures j < |Execute(s, steps).places| && Keeps(Execute(s, steps).places[j])
    decreases |steps|
  {
    hide Inv;
    hide Next;
    hide Keeps;
    if steps != [] {
      NextKeepsInv(s, steps[0]);
      NextKeeps(s, steps[0], j);
      KeepsForEver(Next(s, steps[0]), steps[1..], j);
    }
  }
}
