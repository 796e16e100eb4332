/** The double-checked cache of whether the session file exists: two atomic flags, one lock and any number of callers,
    over a file system that may give another answer at any time. */
module SessionFileCache {
  import opened Json
  import opened Runs

  /** Where a caller stands. Everything from `Locked` to `Second` is done holding the lock. */
  datatype Caller =
    | Start
    | FastHit               // saw the valid flag, has yet to read the value
    | Waiting               // did not see it, wants the lock
    | Locked                // has yet to check the flag again
    | SlowHit               // saw it this time
    | Missing               // has yet to examine the file
    | First(answer: bool)   // has yet to store the first of the two flags
    | Second(answer: bool)  // has yet to store the other
    | Done(answer: bool)

  /** The flags, the lock's holder, the callers, and the answer of every examination of the file. */
  datatype State = State(checked: bool, exists_: bool, holder: Option<nat>, callers: seq<Caller>, answers: seq<bool>)

  /** A new call, or the next step of a caller; `disk` is what the file system would answer just then. */
  datatype Step = Call | Move(caller: nat, disk: bool)

  const INIT: State := State(false, false, None, [], [])

  predicate Holds(c: Caller) {
    c.Locked? || c.SlowHit? || c.Missing? || c.First? || c.Second?
  }

  /** Whether the adapter has a session file at all, and whether the value is stored before the valid flag. */
  datatype Config = Config(named: bool, valueFirst: bool)

  function Next(cfg: Config, s: State, step: Step): State {
    match step
    case Call => s.(callers := s.callers + [Start])
    case Move(k, disk) => if k < |s.callers| then Moved(cfg, s, k, disk) else s
  }

  function Moved(cfg: Config, s: State, k: nat, disk: bool): State
    requires k < |s.callers|
  {
    match s.callers[k]
    case Start => At(s, k, if !cfg.named then Done(false) else if s.checked then FastHit else Waiting)
    case FastHit => At(s, k, Done(s.exists_))
    case Waiting => if s.holder == None then At(s, k, Locked).(holder := Some(k)) else s
    case Locked => At(s, k, if s.checked then SlowHit else Missing)
    case SlowHit => At(s, k, Done(s.exists_)).(holder := None)
    case Missing => At(s, k, First(disk)).(answers := s.answers + [disk])
    case First(answer) =>
      if cfg.valueFirst then At(s, k, Second(answer)).(exists_ := answer)
      else At(s, k, Second(answer)).(checked := true)
    case Second(answer) =>
      var s' := At(s, k, Done(answer)).(holder := None);
      if cfg.valueFirst then s'.(checked := true) else s'.(exists_ := answer)
    case Done(_) => s
  }

  function At(s: State, k: nat, c: Caller): State
    requires k < |s.callers|
  {
    s.(callers := s.callers[k := c])
  }

  function Machine(cfg: Config): (State, Step) -> State {
    (s: State, step: Step) => Next(cfg, s, step)
  }

  function Execute(cfg: Config, s: State, steps: seq<Step>): State {
    Run(Machine(cfg), s, steps)
  }

  // ---- The value is stored before the valid flag ----

  /** What a caller's place says about the shared state. */
  ghost predicate InPlace(s: State, k: nat)
    requires k < |s.callers|
  {
    && (Holds(s.callers[k]) <==> s.holder == Some(k))
    && match s.callers[k] {
      case FastHit => s.checked
      case SlowHit => s.checked
      case Missing => s.answers == []
      case First(answer) => s.answers == [answer] && !s.checked
      case Second(answer) => s.answers == [answer] && !s.checked && s.exists_ == answer
      case Done(answer) => s.checked && s.answers == [answer]
      case _ => true
    }
  }

  predicate Storing(c: Caller) {
    c.First? || c.Second?
  }

  ghost predicate Inv(s: State) {
    && |s.answers| <= 1
    && (s.checked ==> s.answers == [s.exists_])
    && (s.holder.Some? ==> s.holder.value < |s.callers|)
    && (s.answers != [] && !s.checked ==> s.holder.Some? && Storing(s.callers[s.holder.value]))
    && forall k :: 0 <= k < |s.callers| ==> InPlace(s, k)
  }

  lemma MoveKeepsPlace(cfg: Config, s: State, k: nat, disk: bool, j: nat)
    requires cfg == Config(true, true) && Inv(s) && k < |s.callers| && j < |s.callers|
    ensures InPlace(Moved(cfg, s, k, disk), j)
  {
    assert InPlace(s, j) && InPlace(s, k);
  }

  lemma NextKeepsInv(cfg: Config, s: State, step: Step)
    requires cfg == Config(true, true) && Inv(s)
    ensures Inv(Next(cfg, s, step))
  {
    var s' := Next(cfg, s, step);
    if step.Move? && step.caller < |s.callers| {
      assert InPlace(s, step.caller);
      forall j | 0 <= j < |s'.callers| ensures InPlace(s', j) {
        MoveKeepsPlace(cfg, s, step.caller, step.disk, j);
      }
    } else {
      forall j | 0 <= j < |s'.callers| ensures InPlace(s', j) {
        if j < |s.callers| { assert InPlace(s, j); }
      }
    }
  }

  lemma {:induction false} ExecuteKeepsInv(cfg: Config, s: State, steps: seq<Step>)
    requires cfg == Config(true, true) && Inv(s)
    ensures Inv(Execute(cfg, s, steps))
    decreases |steps|
  {
    hide Inv;
    hide Next;
    if steps != [] {
      NextKeepsInv(cfg, s, steps[0]);
      ExecuteKeepsInv(cfg, Next(cfg, s, steps[0]), steps[1..]);
    }
  }

  /** Every interleaving: the file is examined at most once, and whoever has returned has returned that answer. */
  lemma OneAnswerForAll(steps: seq<Step>, k: nat)
    requires k < |Execute(Config(true, true), INIT, steps).callers|
    ensures var s := Execute(Config(true, true), INIT, steps);
      && |s.answers| <= 1
      && (s.callers[k].Done? ==> s.answers == [s.callers[k].answer])
  {
    hide Execute;
    ExecuteKeepsInv(Config(true, true), INIT, steps);
    assert InPlace(Execute(Config(true, true), INIT, steps), k);
  }

  /** An answer is what the disk gave at one of the steps. */
  lemma {:induction false} AnswersAreFromDisk(cfg: Config, s: State, steps: seq<Step>)
    ensures forall a :: a in Execute(cfg, s, steps).answers ==>
      a in s.answers || exists k :: 0 <= k < |steps| && steps[k].Move? && steps[k].disk == a
    decreases |steps|
  {
    hide Next;
    if steps != [] {
      var s', rest := Next(cfg, s, steps[0]), steps[1..];
      AnswersAreFromDisk(cfg, s', rest);
      AnswersAfter(cfg, s, steps[0]);
      forall a | a in Execute(cfg, s', rest).answers
        ensures a in s.answers || exists k :: 0 <= k < |steps| && steps[k].Move? && steps[k].disk == a
      {
        if k :| 0 <= k < |rest| && rest[k].Move? && rest[k].disk == a {
          assert steps[k + 1] == rest[k];
        } else if a !in s.answers {
          assert steps[0].Move? && steps[0].disk == a;
        }
      }
    }
  }

  lemma AnswersAfter(cfg: Config, s: State, step: Step)
    ensures forall a :: a in Next(cfg, s, step).answers ==> a in s.answers || (step.Move? && step.disk == a)
  {
  }

  /** Without a session file nobody examines anything, and everybody returns no. */
  lemma {:induction false} UnnamedIsNo(valueFirst: bool, s: State, steps: seq<Step>)
    requires s.answers == [] && forall k :: 0 <= k < |s.callers| ==> s.callers[k] == Start || s.callers[k] == Done(false)
    ensures var s' := Execute(Config(false, valueFirst), s, steps);
      && s'.answers == []
      && forall k :: 0 <= k < |s'.callers| ==> s'.callers[k] == Start || s'.callers[k] == Done(false)
    decreases |steps|
  {
    if steps != [] {
      UnnamedIsNo(valueFirst, Next(Config(false, valueFirst), s, steps[0]), steps[1..]);
    }
  }

  // ---- Why the order of the two stores matters ----

  /** Nobody ever returns anything but the answer of the one examination. */
  ghost predicate AlwaysOneAnswer(valueFirst: bool) {
    forall steps, k :: var s := Execute(Config(true, valueFirst), INIT, steps);
      0 <= k < |s.callers| && s.callers[k].Done? ==> s.answers == [s.callers[k].answer]
  }

  /** Storing the value before the valid flag is exactly what makes the lock-free path safe: the other way round, a
      caller may see the flag and return a value that was never an answer. */
  lemma OneAnswerIffValueFirst(valueFirst: bool)
    ensures AlwaysOneAnswer(valueFirst) <==> valueFirst
  {
    hide Execute;
    if valueFirst {
      forall steps, k | 0 <= k < |Execute(Config(true, true), INIT, steps).callers|
          && Execute(Config(true, true), INIT, steps).callers[k].Done?
        ensures Execute(Config(true, true), INIT, steps).answers
          == [Execute(Config(true, true), INIT, steps).callers[k].answer]
      {
        OneAnswerForAll(steps, k);
      }
    } else {
      FlagFirstMisleads();
    }
  }

  /** The first caller examines a file that is there and stores the flag; the second returns the value of before. */
  const MISLEADING: seq<Step> := Moves([Call, Call], CALLERS)

  /** These steps, then these callers' next ones, with the file on disk throughout. */
  function Moves(steps: seq<Step>, callers: seq<nat>): seq<Step> {
    if callers == [] then steps else Moves(steps, callers[..|callers| - 1]) + [Move(callers[|callers| - 1], true)]
  }

  lemma OneMove(cfg: Config, steps: seq<Step>, callers: seq<nat>, i: nat)
    requires i < |callers|
    ensures Execute(cfg, INIT, Moves(steps, callers[..i + 1]))
      == Next(cfg, Execute(cfg, INIT, Moves(steps, callers[..i])), Move(callers[i], true))
  {
    hide Next;
    var move := Move(callers[i], true);
    assert callers[..i + 1][..i] == callers[..i];
    RunAppend(Machine(cfg), INIT, Moves(steps, callers[..i]), [move]);
    RunOne(Machine(cfg), Execute(cfg, INIT, Moves(steps, callers[..i])), move);
  }

  const CALLERS: seq<nat> := [0, 0, 0, 0, 0, 1, 1]

  /** The first caller has stored the flag but not yet the value. */
  lemma FlagIsFirst(cfg: Config)
    requires cfg == Config(true, false)
    ensures var s := Execute(cfg, INIT, Moves([Call, Call], CALLERS[..5]));
      s.checked && !s.exists_ && s.answers == [true] && |s.callers| == 2 && s.callers[1] == Start
  {
    hide Execute;
    hide Moves;
    TwoCalls(cfg);
    assert CALLERS[..0] == [];
    OneMove(cfg, [Call, Call], CALLERS, 0);
    OneMove(cfg, [Call, Call], CALLERS, 1);
    OneMove(cfg, [Call, Call], CALLERS, 2);
    OneMove(cfg, [Call, Call], CALLERS, 3);
    OneMove(cfg, [Call, Call], CALLERS, 4);
  }

  lemma FlagFirstMisleads()
    ensures var s := Execute(Config(true, false), INIT, MISLEADING);
      |s.callers| == 2 && s.callers[1] == Done(false) && s.answers == [true]
  {
    hide Execute;
    hide Moves;
    var cfg := Config(true, false);
    FlagIsFirst(cfg);
    OneMove(cfg, [Call, Call], CALLERS, 5);
    OneMove(cfg, [Call, Call], CALLERS, 6);
    assert CALLERS[..7] == CALLERS;
  }

  lemma TwoCalls(cfg: Config)
    ensures Execute(cfg, INIT, Moves([Call, Call], [])) == State(false, false, None, [Start, Start], [])
  {
    assert [Call, Call][1..] == [Call];
    RunOne(Machine(cfg), Next(cfg, INIT, Call), Call);
  }

  // ---- The adapter's own fields and method ----

  class Adapter {
    var sessionFile: string
    var sessionChecked: bool
    var sessionExists: bool

    /** A call that nothing interrupts: the answer is taken from the disk the first time and kept from then on. */
    method SessionFileExists(disk: bool) returns (exists_: bool)
      modifies `sessionChecked, `sessionExists
      ensures sessionFile == "" ==>
        !exists_ && sessionChecked == old(sessionChecked) && sessionExists == old(sessionExists)
      ensures sessionFile != "" ==>
        sessionChecked && sessionExists == exists_ == if old(sessionChecked) then old(sessionExists) else disk
    {
      if sessionFile == "" { return false; }
      if sessionChecked { return sessionExists; }
      exists_ := disk;
      sessionExists := exists_;
      sessionChecked := true;
    }
  }
}
