/** The debounced output of the test client: chunks gather in a buffer that a timer, a notice or the end of a response
    may flush at any time, yet what is printed must not depend on when. */
module OutputBuffer {

  /** The buffer, the type of the last chunk ("" for none), whether the icon is out, and everything printed so far. */
  datatype State = State(buffer: string, lastType: string, shown: bool, out: string)

  /** What happens to the buffer under its lock, or to the printed text. A flush is a timer's or a manual one. */
  datatype Step = Add(text: string, typ: string) | Flush | Clear | Print(text: string)

  const INIT: State := State("", "", false, "")

  predicate Known(typ: string) {
    typ == "message" || typ == "thought"
  }

  function Icon(typ: string): string {
    if typ == "message" then "🤖 " else "💭 "
  }

  /** What flushing this content prints; content of an unknown type is lost when its icon would be due. */
  function Flushed(content: string, typ: string, shown: bool): string {
    if content == "" then ""
    else if shown then content
    else if Known(typ) then Icon(typ) + content
    else ""
  }

  function DoFlush(s: State): State {
    if s.buffer == "" then s
    else s.(out := s.out + Flushed(s.buffer, s.lastType, s.shown), shown := true, buffer := "")
  }

  function Next(s: State, step: Step): State {
    match step
    case Add(text, typ) =>
      Append(if s.lastType != "" && s.lastType != typ then ChangeType(s) else s, text, typ)
    case Flush => DoFlush(s)
    case Clear => s.(shown := false, lastType := "")
    case Print(text) => s.(out := s.out + text)
  }

  function Append(s: State, text: string, typ: string): State {
    s.(buffer := s.buffer + text, lastType := typ)
  }

  function ChangeType(s: State): State {
    var s' := DoFlush(s);
    s'.(out := s'.out + "\n", shown := false)
  }

  function Execute(s: State, steps: seq<Step>): State {
    if steps == [] then s else Next(Execute(s, steps[..|steps| - 1]), steps[|steps| - 1])
  }

  // ---- Independence of the timing ----

  /** The steps without the flushes. */
  function Visible(steps: seq<Step>): seq<Step> {
    if steps == [] then []
    else
      var last := steps[|steps| - 1];
      Visible(steps[..|steps| - 1]) + (if last.Flush? then [] else [last])
  }

  /** Whether a chunk was added since the last flush. */
  predicate Dirty(steps: seq<Step>) {
    if steps == [] then false
    else
      var last := steps[|steps| - 1];
      !last.Flush? && (last.Add? || Dirty(steps[..|steps| - 1]))
  }

  /** The client only prints and clears right after a flush, and only adds chunks of the two types it knows. Timers may
      flush anywhere else. */
  predicate Disciplined(steps: seq<Step>) {
    if steps == [] then true
    else
      var rest, last := steps[..|steps| - 1], steps[|steps| - 1];
      && Disciplined(rest)
      && match last {
        case Add(_, typ) => Known(typ)
        case Flush => true
        case _ => !Dirty(rest)
      }
  }

  /** The simplest schedule: every chunk is flushed at once. */
  function Eager(s: State, steps: seq<Step>): State {
    if steps == [] then s else DoFlush(Next(Eager(s, steps[..|steps| - 1]), steps[|steps| - 1]))
  }

  /** A state is behind the eager one by exactly the content of its buffer. */
  ghost predicate Behind(s: State, e: State) {
    && e.buffer == "" && e.lastType == s.lastType
    && e.shown == (s.shown || s.buffer != "")
    && e.out == s.out + Flushed(s.buffer, s.lastType, s.shown)
    && (s.lastType == "" ==> s.buffer == "")
    && (s.buffer != "" ==> Known(s.lastType))
  }

  lemma FlushedTwice(a: string, b: string, typ: string, shown: bool)
    requires Known(typ)
    ensures Flushed(a + b, typ, shown) == Flushed(a, typ, shown) + Flushed(b, typ, shown || a != "")
  {
    assert a == "" ==> a + b == b;
    assert b == "" ==> a + b == a;
    if !shown && a != "" { assert Icon(typ) + (a + b) == Icon(typ) + a + b; }
  }

  lemma ChangeKeepsBehind(s: State, e: State)
    requires Behind(s, e)
    ensures Behind(ChangeType(s), ChangeType(e)) && ChangeType(s).buffer == ""
  {
    hide Icon;
    assert e.out + "\n" + "" == e.out + "\n";
  }

  lemma AppendNothing(s: State, e: State, typ: string)
    requires Behind(s, e) && Known(typ) && (s.buffer == "" || s.lastType == typ)
    ensures Behind(Append(s, "", typ), DoFlush(Append(e, "", typ)))
  {
    hide Known;
    hide Flushed;
    NothingFlushed(s.lastType, s.shown);
    NothingFlushed(typ, s.shown);
    assert s.buffer + "" == s.buffer && e.buffer + "" == "";
  }

  lemma AppendText(s: State, e: State, text: string, typ: string)
    requires Behind(s, e) && Known(typ) && (s.buffer == "" || s.lastType == typ) && text != ""
    ensures Behind(Append(s, text, typ), DoFlush(Append(e, text, typ)))
  {
    hide Flushed;
    FlushedTwice(s.buffer, text, typ, s.shown);
    NothingFlushed(s.lastType, s.shown);
    NothingFlushed(typ, s.shown);
    assert e.buffer + text == text;
    assert s.buffer + text != "" by { assert |s.buffer + text| > 0; }
    Associates(s.out, Flushed(s.buffer, typ, s.shown), Flushed(text, typ, s.shown || s.buffer != ""));
  }

  lemma Associates(a: string, b: string, c: string)
    ensures a + b + c == a + (b + c)
  {
  }

  lemma NothingFlushed(typ: string, shown: bool)
    ensures Flushed("", typ, shown) == ""
  {
  }

  lemma AppendKeepsBehind(s: State, e: State, text: string, typ: string)
    requires Behind(s, e) && Known(typ) && (s.buffer == "" || s.lastType == typ)
    ensures Behind(Append(s, text, typ), DoFlush(Append(e, text, typ)))
  {
    hide Behind;
    hide Append;
    if text == "" { AppendNothing(s, e, typ); } else { AppendText(s, e, text, typ); }
  }

  lemma SameType(s: State, e: State)
    requires Behind(s, e)
    ensures e.lastType == s.lastType && (s.lastType == "" ==> s.buffer == "")
  {
  }

  lemma AddKeepsBehind(s: State, e: State, text: string, typ: string)
    requires Behind(s, e) && Known(typ)
    ensures Behind(Next(s, Add(text, typ)), DoFlush(Next(e, Add(text, typ))))
  {
    hide Known;
    hide Flushed;
    hide DoFlush;
    hide Append;
    hide ChangeType;
    hide Behind;
    SameType(s, e);
    if s.lastType != "" && s.lastType != typ {
      ChangeKeepsBehind(s, e);
      AppendKeepsBehind(ChangeType(s), ChangeType(e), text, typ);
    } else {
      AppendKeepsBehind(s, e, text, typ);
    }
  }

  lemma FlushKeepsBehind(s: State, e: State)
    requires Behind(s, e)
    ensures Behind(DoFlush(s), e) && DoFlush(s).out == e.out
  {
  }

  lemma QuietKeepsBehind(s: State, e: State, step: Step)
    requires Behind(s, e) && s.buffer == "" && (step.Clear? || step.Print?)
    ensures Behind(Next(s, step), DoFlush(Next(e, step)))
  {
  }

  /** The real state against the eager one on the same visible steps. */
  lemma {:induction false} StaysBehind(steps: seq<Step>)
    requires Disciplined(steps)
    ensures Behind(Execute(INIT, steps), Eager(INIT, Visible(steps)))
    ensures !Dirty(steps) ==> Execute(INIT, steps).buffer == ""
  {
    hide Behind;
    hide Next;
    hide DoFlush;
    if steps == [] {
      InitIsBehind();
    } else {
      var rest, last := steps[..|steps| - 1], steps[|steps| - 1];
      StaysBehind(rest);
      var s, e := Execute(INIT, rest), Eager(INIT, Visible(rest));
      NextBuffer(s, last);
      if last.Flush? {
        assert Visible(steps) == Visible(rest);
        FlushKeepsBehind(s, e);
      } else {
        assert Visible(steps) == Visible(rest) + [last];
        assert Visible(steps)[..|Visible(rest)|] == Visible(rest);
        if last.Add? { AddKeepsBehind(s, e, last.text, last.typ); } else { QuietKeepsBehind(s, e, last); }
      }
    }
  }

  lemma InitIsBehind()
    ensures Behind(INIT, INIT)
  {
  }

  lemma NextBuffer(s: State, step: Step)
    ensures step.Flush? ==> Next(s, step) == DoFlush(s) && DoFlush(s).buffer == ""
    ensures step.Clear? || step.Print? ==> Next(s, step).buffer == s.buffer
  {
  }

  /** Any two schedules of the same chunks, notices and resets have printed the same text once they end with a flush,
      and it is what flushing every chunk at once prints. */
  lemma TimingIsInvisible(a: seq<Step>, b: seq<Step>)
    requires Disciplined(a) && Disciplined(b) && Visible(a) == Visible(b)
    ensures DoFlush(Execute(INIT, a)).out == DoFlush(Execute(INIT, b)).out == Eager(INIT, Visible(a)).out
  {
    StaysBehind(a);
    StaysBehind(b);
    FlushKeepsBehind(Execute(INIT, a), Eager(INIT, Visible(a)));
    FlushKeepsBehind(Execute(INIT, b), Eager(INIT, Visible(b)));
  }

  // ---- What is printed ----

  /** A run of chunks of one type, and a response: runs of which no two neighbours have the same type. */
  datatype Chunks = Chunks(typ: string, texts: seq<string>)

  ghost predicate Response(runs: seq<Chunks>) {
    && (forall i :: 0 <= i < |runs| ==> Known(runs[i].typ) && runs[i].texts != [])
    && forall i :: 0 < i < |runs| ==> runs[i - 1].typ != runs[i].typ
  }

  function Concat(texts: seq<string>): string {
    if texts == [] then "" else Concat(texts[..|texts| - 1]) + texts[|texts| - 1]
  }

  /** One icon, then the chunks; a run without text prints nothing. */
  function RunText(run: Chunks): string {
    if Concat(run.texts) == "" then "" else Icon(run.typ) + Concat(run.texts)
  }

  /** The runs of a response stand on lines of their own. */
  function ResponseText(runs: seq<Chunks>): string {
    if runs == [] then ""
    else
      var n := |runs| - 1;
      ResponseText(runs[..n]) + (if n == 0 then "" else "\n") + RunText(runs[n])
  }

  /** A conversation: responses that have ended, and notices between them. */
  datatype Item = Answer(runs: seq<Chunks>) | Notice(text: string)

  ghost predicate Sound(item: Item) {
    item.Answer? ==> Response(item.runs)
  }

  /** The text of a conversation: each notice, and each response and what is printed at its end. */
  function Text(items: seq<Item>, end: string): string {
    if items == [] then ""
    else
      var n := |items| - 1;
      Text(items[..n], end) + (match items[n] case Answer(runs) => ResponseText(runs) + end case Notice(text) => text)
  }

  function Adds(run: Chunks): seq<Step>
    decreases |run.texts|
  {
    if run.texts == [] then []
    else
      var n := |run.texts| - 1;
      Adds(Chunks(run.typ, run.texts[..n])) + [Add(run.texts[n], run.typ)]
  }

  function ResponseSteps(runs: seq<Chunks>): seq<Step> {
    if runs == [] then [] else ResponseSteps(runs[..|runs| - 1]) + Adds(runs[|runs| - 1])
  }

  function ItemSteps(item: Item, end: string): seq<Step> {
    match item
    case Answer(runs) => ResponseSteps(runs) + [Clear, Print(end)]
    case Notice(text) => [Print(text)]
  }

  function Steps(items: seq<Item>, end: string): seq<Step> {
    if items == [] then [] else Steps(items[..|items| - 1], end) + ItemSteps(items[|items| - 1], end)
  }

  lemma {:induction false} EagerAppend(s: State, a: seq<Step>, b: seq<Step>)
    ensures Eager(s, a + b) == Eager(Eager(s, a), b)
  {
    hide Next;
    hide DoFlush;
    if b == [] {
      assert a + b == a;
    } else {
      var n := |b| - 1;
      EagerAppend(s, a, b[..n]);
      assert (a + b)[..|a| + n] == a + b[..n];
    }
  }

  /** From a flushed state, a run prints a line break if it changes the type, and then its text. */
  lemma EagerOneMore(s: State, steps: seq<Step>, step: Step)
    ensures Eager(s, steps + [step]) == DoFlush(Next(Eager(s, steps), step))
  {
    hide Next;
    hide DoFlush;
    assert (steps + [step])[..|steps|] == steps;
  }

  /** What one chunk adds in the eager schedule, at the start of a run and later in it. */
  lemma EagerStart(s: State, text: string, typ: string)
    requires s.buffer == "" && Known(typ) && s.lastType != typ && (s.lastType == "" ==> !s.shown)
    ensures DoFlush(Next(s, Add(text, typ))) ==
      State("", typ, text != "", s.out + (if s.lastType == "" then "" else "\n") + Flushed(text, typ, false))
  {
    hide Flushed;
    NothingFlushed(typ, false);
    assert "" + text == text;
    assert s.out + "" == s.out;
    assert s.out + "\n" + "" == s.out + "\n";
  }

  lemma EagerMore(s: State, text: string)
    requires s.buffer == "" && Known(s.lastType)
    ensures DoFlush(Next(s, Add(text, s.lastType))) ==
      State("", s.lastType, s.shown || text != "", s.out + Flushed(text, s.lastType, s.shown))
  {
    hide Flushed;
    NothingFlushed(s.lastType, s.shown);
    assert "" + text == text;
    assert s.out + "" == s.out;
  }

  /** From a flushed state, a run prints a line break if it changes the type, and then its text. */
  lemma {:induction false} EagerRun(s: State, run: Chunks)
    requires s.buffer == "" && Known(run.typ) && run.texts != []
    requires s.lastType == "" ==> !s.shown
    requires s.lastType != run.typ
    ensures Eager(s, Adds(run)) == State("", run.typ, Concat(run.texts) != "",
      s.out + (if s.lastType == "" then "" else "\n") + Flushed(Concat(run.texts), run.typ, false))
    decreases |run.texts|
  {
    hide Flushed;
    hide Next;
    hide DoFlush;
    hide Known;
    var n := |run.texts| - 1;
    var text := run.texts[n];
    var before := Chunks(run.typ, run.texts[..n]);
    var line := s.out + (if s.lastType == "" then "" else "\n");
    EagerOneMore(s, Adds(before), Add(text, run.typ));
    if n == 0 {
      EagerStart(s, text, run.typ);
      assert "" + text == text;
    } else {
      EagerRun(s, before);
      EagerMore(Eager(s, Adds(before)), text);
      FlushedTwice(Concat(before.texts), text, run.typ, false);
      Associates(line, Flushed(Concat(before.texts), run.typ, false), Flushed(text, run.typ, Concat(before.texts) != ""));
      NoText(Concat(before.texts), text);
    }
  }

  lemma NoText(a: string, b: string)
    ensures a + b == "" <==> a == "" && b == ""
  {
    assert |a + b| == |a| + |b|;
  }

  /** A response, begun after a reset, prints its runs on lines of their own. */
  lemma {:induction false} EagerResponse(s: State, runs: seq<Chunks>)
    requires s.buffer == "" && s.lastType == "" && !s.shown && Response(runs)
    ensures var s' := Eager(s, ResponseSteps(runs));
      && s'.buffer == "" && s'.out == s.out + ResponseText(runs)
      && s'.lastType == (if runs == [] then "" else runs[|runs| - 1].typ)
      && (runs == [] ==> s' == s)
  {
    hide Adds;
    if runs == [] {
      assert s.out + "" == s.out;
    } else {
      var n := |runs| - 1;
      var before := runs[..n];
      EagerResponse(s, before);
      var mid := Eager(s, ResponseSteps(before));
      EagerAppend(s, ResponseSteps(before), Adds(runs[n]));
      hide Eager;
      EagerRun(mid, runs[n]);
      var line := if n == 0 then "" else "\n";
      Associates(s.out, ResponseText(before), line);
      Associates(s.out, ResponseText(before) + line, RunText(runs[n]));
    }
  }

  lemma EagerEnd(s: State, end: string)
    requires s.buffer == ""
    ensures Eager(s, [Clear, Print(end)]) == State("", "", false, s.out + end)
  {
    EagerOneMore(s, [], Clear);
    EagerOneMore(s, [Clear], Print(end));
    assert [] + [Clear] == [Clear] && [Clear] + [Print(end)] == [Clear, Print(end)];
  }

  lemma EagerItem(s: State, item: Item, end: string)
    requires s == State("", "", false, s.out) && Sound(item)
    ensures Eager(s, ItemSteps(item, end)) == State("", "", false,
      s.out + (match item case Answer(runs) => ResponseText(runs) + end case Notice(text) => text))
  {
    hide Eager;
    hide ResponseSteps;
    hide ResponseText;
    match item
    case Answer(runs) =>
      EagerResponse(s, runs);
      EagerAppend(s, ResponseSteps(runs), [Clear, Print(end)]);
      EagerEnd(Eager(s, ResponseSteps(runs)), end);
      Associates(s.out, ResponseText(runs), end);
    case Notice(text) =>
      NoSteps(s);
      EagerOneMore(s, [], Print(text));
      assert [] + [Print(text)] == [Print(text)];
  }

  lemma {:induction false} EagerConversation(items: seq<Item>, end: string)
    requires forall item :: item in items ==> Sound(item)
    ensures Eager(INIT, Steps(items, end)) == State("", "", false, Text(items, end))
    decreases |items|
  {
    hide ItemSteps;
    hide ResponseText;
    hide Sound;
    hide Eager;
    NoSteps(INIT);
    if items != [] {
      var n := |items| - 1;
      var before := items[..n];
      EagerConversation(before, end);
      EagerAppend(INIT, Steps(before, end), ItemSteps(items[n], end));
      EagerItem(Eager(INIT, Steps(before, end)), items[n], end);
    }
  }

  lemma NoSteps(s: State)
    ensures Eager(s, []) == s
  {
  }

  /** However timers and manual flushes fall, a conversation that has come as far as some response still open prints its
      text: for each run of one type one icon and then its chunks, nothing lost, repeated or moved. */
  lemma PrintsTheText(steps: seq<Step>, items: seq<Item>, end: string, open: seq<Chunks>)
    requires Disciplined(steps) && Visible(steps) == Steps(items, end) + ResponseSteps(open)
    requires (forall item :: item in items ==> Sound(item)) && Response(open)
    ensures DoFlush(Execute(INIT, steps)).out == Text(items, end) + ResponseText(open)
  {
    hide Eager;
    StaysBehind(steps);
    FlushKeepsBehind(Execute(INIT, steps), Eager(INIT, Visible(steps)));
    EagerConversation(items, end);
    EagerAppend(INIT, Steps(items, end), ResponseSteps(open));
    EagerResponse(Eager(INIT, Steps(items, end)), open);
  }

  /** A message alone is a robot and its text, a thought alone a balloon and its text. */
  lemma OneChunkPrints(steps: seq<Step>, text: string, typ: string)
    requires Disciplined(steps) && Visible(steps) == [Add(text, typ)] && text != ""
    requires typ == "message" || typ == "thought"
    ensures DoFlush(Execute(INIT, steps)).out == (if typ == "message" then "🤖 " else "💭 ") + text
  {
    hide Execute;
    hide DoFlush;
    var run := Chunks(typ, [text]);
    OneRun(run);
    PrintsTheText(steps, [], "", [run]);
    assert Steps([], "") + Adds(run) == Adds(run);
    assert Text([], "") + ResponseText([run]) == ResponseText([run]);
  }

  /** Two chunks of one type share their icon. */
  lemma TwoChunksPrint(steps: seq<Step>, first: string, second: string, typ: string)
    requires Disciplined(steps) && Visible(steps) == [Add(first, typ), Add(second, typ)] && first != ""
    requires typ == "message" || typ == "thought"
    ensures DoFlush(Execute(INIT, steps)).out == (if typ == "message" then "🤖 " else "💭 ") + first + second
  {
    hide Execute;
    hide DoFlush;
    var run := Chunks(typ, [first, second]);
    TwoChunks(run);
    PrintsTheText(steps, [], "", [run]);
    assert Steps([], "") + Adds(run) == Adds(run);
    assert Text([], "") + ResponseText([run]) == ResponseText([run]);
    Associates(if typ == "message" then "🤖 " else "💭 ", first, second);
  }

  lemma {:induction false} TwoChunks(run: Chunks)
    requires |run.texts| == 2 && Known(run.typ) && run.texts[0] != ""
    ensures Concat(run.texts) == run.texts[0] + run.texts[1] != ""
    ensures Adds(run) == [Add(run.texts[0], run.typ), Add(run.texts[1], run.typ)]
    ensures Response([run]) && ResponseSteps([run]) == Adds(run) && ResponseText([run]) == RunText(run)
  {
    var one := Chunks(run.typ, run.texts[..1]);
    OneRun(one);
    assert run.texts[..0] == [] && [run][..0] == [];
    assert "" + "" + RunText(run) == RunText(run);
    assert [] + Adds(run) == Adds(run);
    NoText(run.texts[0], run.texts[1]);
  }

  lemma {:induction false} OneRun(run: Chunks)
    requires |run.texts| == 1 && Known(run.typ)
    ensures Concat(run.texts) == run.texts[0] && Adds(run) == [Add(run.texts[0], run.typ)]
    ensures Response([run]) && ResponseSteps([run]) == Adds(run) && ResponseText([run]) == RunText(run)
  {
    assert run.texts[..0] == [] && [run][..0] == [];
    assert "" + run.texts[0] == run.texts[0];
    assert "" + "" + RunText(run) == RunText(run);
    assert [] + Adds(run) == Adds(run);
  }

  /** A thought and then a message stand on two lines, each behind its own icon. */
  lemma ThoughtThenMessagePrints(steps: seq<Step>, thought: string, message: string)
    requires Disciplined(steps) && Visible(steps) == [Add(thought, "thought"), Add(message, "message")]
    requires thought != "" && message != ""
    ensures DoFlush(Execute(INIT, steps)).out == "💭 " + thought + "\n" + "🤖 " + message
  {
    hide Execute;
    hide DoFlush;
    var first, second := Chunks("thought", [thought]), Chunks("message", [message]);
    OneRun(first);
    OneRun(second);
    TwoRuns(first, second);
    PrintsTheText(steps, [], "", [first, second]);
    assert Steps([], "") + ResponseSteps([first, second]) == ResponseSteps([first, second]);
    assert Text([], "") + ResponseText([first, second]) == ResponseText([first, second]);
    Associates("💭 " + thought + "\n", "🤖 ", message);
  }

  lemma {:induction false} TwoRuns(first: Chunks, second: Chunks)
    requires Response([first]) && Response([second]) && first.typ != second.typ
    ensures Response([first, second])
    ensures ResponseSteps([first, second]) == ResponseSteps([first]) + Adds(second)
    ensures ResponseText([first, second]) == ResponseText([first]) + "\n" + RunText(second)
  {
    hide RunText;
    hide Adds;
    assert [first][0] == first && [second][0] == second;
    assert [first, second][..1] == [first];
  }

  // ---- Other types ----

  /** Only chunks of this type, and flushes. */
  predicate OnlyType(steps: seq<Step>, typ: string) {
    forall i :: 0 <= i < |steps| ==> steps[i].Flush? || (steps[i].Add? && steps[i].typ == typ)
  }

  ghost predicate TimingFree(typ: string) {
    forall a, b :: OnlyType(a, typ) && OnlyType(b, typ) && Visible(a) == Visible(b) ==>
      DoFlush(Execute(INIT, a)).out == DoFlush(Execute(INIT, b)).out
  }

  lemma {:induction false} OnlyKnownIsDisciplined(steps: seq<Step>, typ: string)
    requires OnlyType(steps, typ) && Known(typ)
    ensures Disciplined(steps)
  {
    if steps != [] {
      var n := |steps| - 1;
      assert steps[n].Flush? || steps[n].Add?;
      OnlyKnownIsDisciplined(steps[..n], typ);
    }
  }

  /** The timing is invisible exactly for the types that have an icon: a chunk of any other type is lost if it is
      flushed first and printed if it is not. */
  lemma TimingFreeIffKnown(typ: string)
    ensures TimingFree(typ) <==> Known(typ)
  {
    hide Execute;
    hide Visible;
    hide DoFlush;
    if Known(typ) {
      forall a, b | OnlyType(a, typ) && OnlyType(b, typ) && Visible(a) == Visible(b)
        ensures DoFlush(Execute(INIT, a)).out == DoFlush(Execute(INIT, b)).out
      {
        OnlyKnownIsDisciplined(a, typ);
        OnlyKnownIsDisciplined(b, typ);
        TimingIsInvisible(a, b);
      }
    } else {
      UnknownTypeShowsTiming(typ);
      var a, b := [Add("a", typ), Add("b", typ)], [Add("a", typ), Flush, Add("b", typ)];
      assert OnlyType(a, typ) && OnlyType(b, typ);
    }
  }

  lemma UnknownTypeShowsTiming(typ: string)
    requires !Known(typ)
    ensures var a, b := [Add("a", typ), Add("b", typ)], [Add("a", typ), Flush, Add("b", typ)];
      && Visible(a) == Visible(b)
      && DoFlush(Execute(INIT, a)).out == "" && DoFlush(Execute(INIT, b)).out == "b"
  {
    var a, b := [Add("a", typ), Add("b", typ)], [Add("a", typ), Flush, Add("b", typ)];
    var one := [Add("a", typ)];
    assert one[..0] == [] && a[..1] == one && b[..2] == one + [Flush] && (one + [Flush])[..1] == one;
    assert "" + "a" == "a" && "a" + "b" == "ab" && "" + "b" == "b" && "" + "" == "";
    assert Execute(INIT, one) == Next(INIT, one[0]) == State("a", typ, false, "");
    assert Execute(INIT, one + [Flush]) == DoFlush(State("a", typ, false, ""));
  }

  // ---- The buffer object ----

  class Buffer {
    var buffer: string
    var lastType: string
    var shown: bool
    var out: string  // everything printed

    ghost function Abs(): State
      reads this
    {
      State(buffer, lastType, shown, out)
    }

    constructor ()
      ensures Abs() == INIT
    {
      buffer, lastType, shown, out := "", "", false, "";
    }

    method Printf(text: string)
      modifies `out
      ensures out == old(out) + text
    {
      out := out + text;
    }

    method FlushNow()
      modifies this
      ensures Abs() == DoFlush(old(Abs()))
    {
      if |buffer| == 0 { return; }
      var content := buffer;
      if !shown {
        if lastType == "message" {
          Printf("🤖 " + content);
        } else if lastType == "thought" {
          Printf("💭 " + content);
        }
        shown := true;
      } else {
        Printf(content);
      }
      buffer := "";
      assert old(out) + "" == old(out);
    }

    method AddChunk(text: string, typ: string)
      modifies this
      ensures Abs() == Next(old(Abs()), Add(text, typ))
    {
      if lastType != "" && lastType != typ {
        if |buffer| > 0 {
          FlushNow();
        }
        Printf("\n");
        shown := false;
      }
      buffer := buffer + text;
      lastType := typ;
    }

    /** The callback of any timer, whenever it runs. */
    method TimerFires()
      modifies this
      ensures Abs() == Next(old(Abs()), Flush)
    {
      if |buffer| > 0 {
        FlushNow();
      }
    }

    /** The end of a response: a flush, the reset, and what is printed after it. */
    method EndResponse(end: string)
      modifies this
      ensures Abs() == Next(Next(Next(old(Abs()), Flush), Clear), Print(end))
    {
      FlushNow();
      shown := false;
      lastType := "";
      Printf(end);
    }

    /** A notice such as an error: a flush, then the notice. */
    method PrintNotice(text: string)
      modifies this
      ensures Abs() == Next(Next(old(Abs()), Flush), Print(text))
    {
      FlushNow();
      Printf(text);
    }
  }
}
