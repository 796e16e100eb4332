/** Matching responses to requests over one stream of lines that also carries notifications, echoes of requests and
    replies to requests that gave up earlier. */
module AcpClient {
  import opened Json

  const MAX_READS: nat := 30

  /** What one read of the stream gives. */
  datatype Incoming = Line(value: Json) | Unparsable | ReadTimeout | EndOfFile | ReadFailure

  datatype Notification = Notification(name: string, params: Option<Json>)

  /** How a request ends. A reply carries its raw result; one without a result is empty. */
  datatype Outcome =
    | Sent | NoSession | WriteFailed | NoReader
    | TimedOut | ParseFailed | Ended | ReadFailed
    | Refused(error: Json) | Replied(result: Json) | Empty

  // ---- Reading one message ----

  /** The decoder fills a map, so null reads as a message without fields and any other scalar or array is an error. */
  predicate Parses(m: Incoming) {
    m.Line? && (m.value.JObject? || m.value.JNull?)
  }

  function Fields(m: Incoming): map<string, Json>
    requires Parses(m)
  {
    if m.value.JObject? then m.value.fields else map[]
  }

  function Field(fields: map<string, Json>, name: string): Json {
    if name in fields then fields[name] else JNull
  }

  predicate IsNotification(m: Incoming) {
    Parses(m) && Field(Fields(m), "id").JNull?
  }

  predicate Bears(m: Incoming, id: int) {
    Parses(m) && Field(Fields(m), "id") == JNumber(id as real)
  }

  /** Some peers send the request back before they answer it. */
  predicate IsEcho(m: Incoming) {
    Parses(m) && "method" in Fields(m) && "result" !in Fields(m) && "error" !in Fields(m)
  }

  predicate IsFailure(m: Incoming) {
    !Parses(m) && !m.ReadTimeout?
  }

  /** What ends a request: a failure to read or parse, or a message with the request's own id that is no echo. */
  predicate Decides(m: Incoming, id: int) {
    IsFailure(m) || (Bears(m, id) && !IsEcho(m))
  }

  function Verdict(m: Incoming): Outcome {
    match m
    case EndOfFile => Ended
    case ReadFailure => ReadFailed
    case ReadTimeout => TimedOut
    case Unparsable => ParseFailed
    case Line(_) =>
      if !Parses(m) then ParseFailed
      else if !Field(Fields(m), "error").JNull? then Refused(Field(Fields(m), "error"))
      else if !Field(Fields(m), "result").JNull? then Replied(Field(Fields(m), "result"))
      else Empty
  }

  /** The notification a message passes to the handler, if any. */
  function Notice(m: Incoming): seq<Notification> {
    if IsNotification(m) && Field(Fields(m), "method").JString? then
      [Notification(Fields(m)["method"].s, if "params" in Fields(m) then Some(Fields(m)["params"]) else None)]
    else []
  }

  function Notices(stream: nat -> Incoming, start: nat, end: nat): seq<Notification>
    requires start <= end
    decreases end
  {
    if start == end then [] else Notices(stream, start, end - 1) + Notice(stream(end - 1))
  }

  // ---- One request ----

  /** How many of the next `n` messages come before the first one that decides. */
  function Ends(stream: nat -> Incoming, pos: nat, id: int, n: nat): (k: nat)
    ensures k <= n
    decreases n
  {
    if n == 0 || Decides(stream(pos), id) then 0 else 1 + Ends(stream, pos + 1, id, n - 1)
  }

  /** The client: its counter, how far the stream has been read, whether it can read and has a handler, what it passed
      to the handler, and its session. */
  datatype Client = Client(num: int, pos: nat, reading: bool, handler: bool, notices: seq<Notification>)

  /** A request: whether the caller wants its result, whether the write succeeds, and the round of the loop at which
      the deadline is found to have passed. */
  datatype Request = Request(wanted: bool, written: bool, deadline: nat)

  function Rounds(r: Request): nat {
    if r.deadline < MAX_READS then r.deadline else MAX_READS
  }

  function Next(stream: nat -> Incoming, c: Client, r: Request): (Client, Outcome) {
    var id := c.num + 1;
    var c' := c.(num := id);
    if !r.written then (c', WriteFailed)
    else if !r.wanted then (c', Sent)
    else if !c.reading then (c', NoReader)
    else
      var k := Ends(stream, c.pos, id, Rounds(r));
      var end := if k < Rounds(r) then c.pos + k + 1 else c.pos + k;
      var notices := if c.handler then c.notices + Notices(stream, c.pos, end) else c.notices;
      (c'.(pos := end, notices := notices), if k < Rounds(r) then Verdict(stream(c.pos + k)) else TimedOut)
  }

  /** A request that wants its result ends at the first message among its reads that decides, if there is one, and
      otherwise times out; nothing before that message decides. */
  lemma {:induction false} EndsAtFirst(stream: nat -> Incoming, pos: nat, id: int, n: nat)
    ensures var k := Ends(stream, pos, id, n);
      && (forall p :: pos <= p < pos + k ==> !Decides(stream(p), id))
      && (k < n ==> Decides(stream(pos + k), id))
      && (k < n <==> exists p :: pos <= p < pos + n && Decides(stream(p), id))
    decreases n
  {
    if n > 0 && !Decides(stream(pos), id) {
      EndsAtFirst(stream, pos + 1, id, n - 1);
    }
  }

  lemma {:induction false} NoticesSplit(stream: nat -> Incoming, a: nat, b: nat, c: nat)
    requires a <= b <= c
    ensures Notices(stream, a, c) == Notices(stream, a, b) + Notices(stream, b, c)
    decreases c
  {
    if b < c { NoticesSplit(stream, a, b, c - 1); }
  }

  // ---- Sequences of requests ----

  /** One request of a run: its id, the part of the stream it read, and how it ended. */
  datatype Exchange = Exchange(request: Request, id: int, start: nat, end: nat, outcome: Outcome)

  function Run(stream: nat -> Incoming, c: Client, requests: seq<Request>): (Client, seq<Exchange>)
    decreases |requests|
  {
    if requests == [] then (c, [])
    else
      var n := |requests| - 1;
      var (c', done) := Run(stream, c, requests[..n]);
      var (c'', outcome) := Next(stream, c', requests[n]);
      (c'', done + [Exchange(requests[n], c''.num, c'.pos, c''.pos, outcome)])
  }

  predicate FromPeer(o: Outcome) {
    o.Refused? || o.Replied? || o.Empty?
  }

  /** Whether this message is the first of the request's reads that decides. */
  ghost predicate FirstToDecide(stream: nat -> Incoming, e: Exchange, p: nat) {
    e.start <= p && Decides(stream(p), e.id) && forall q :: e.start <= q < p ==> !Decides(stream(q), e.id)
  }

  /** How a request must end. One that waits for its result reads up to the first message that decides and ends with
      its verdict, or, if and only if none of the messages it may read decides, reads them all and times out. */
  ghost predicate Proper(stream: nat -> Incoming, reading: bool, e: Exchange) {
    var limit := e.start + Rounds(e.request);
    if !e.request.written then e.end == e.start && e.outcome == WriteFailed
    else if !e.request.wanted then e.end == e.start && e.outcome == Sent
    else if !reading then e.end == e.start && e.outcome == NoReader
    else if exists p :: e.start <= p < limit && Decides(stream(p), e.id) then
      e.start < e.end <= limit && FirstToDecide(stream, e, e.end - 1) && e.outcome == Verdict(stream(e.end - 1))
    else e.end == limit && e.outcome == TimedOut
  }

  lemma NextIsProper(stream: nat -> Incoming, c: Client, r: Request)
    ensures var (c', outcome) := Next(stream, c, r);
      && c'.num == c.num + 1
      && Proper(stream, c.reading, Exchange(r, c'.num, c.pos, c'.pos, outcome))
      && c'.notices == (if c.handler then c.notices + Notices(stream, c.pos, c'.pos) else c.notices)
  {
    hide Decides;
    hide Verdict;
    EndsAtFirst(stream, c.pos, c.num + 1, Rounds(r));
  }

  /** An answer comes only in a message with the request's own id that is no echo, within thirty reads. */
  lemma AnswerBearsId(stream: nat -> Incoming, reading: bool, e: Exchange)
    requires Proper(stream, reading, e)
    ensures e.start <= e.end <= e.start + MAX_READS
    ensures FromPeer(e.outcome) ==> e.start < e.end && Bears(stream(e.end - 1), e.id) && !IsEcho(stream(e.end - 1))
  {
  }

  function ReadUpTo(start: nat, done: seq<Exchange>): nat {
    if done == [] then start else done[|done| - 1].end
  }

  /** The exchanges number on from the client's counter, read adjoining parts of the stream, and are proper. */
  ghost predicate Linked(stream: nat -> Incoming, c: Client, done: seq<Exchange>) {
    forall j :: 0 <= j < |done| ==>
      && done[j].id == c.num + j + 1 && done[j].start == ReadUpTo(c.pos, done[..j])
      && Proper(stream, c.reading, done[j])
  }

  lemma LinkOne(stream: nat -> Incoming, c: Client, done: seq<Exchange>, e: Exchange)
    requires Linked(stream, c, done)
    requires e.id == c.num + |done| + 1 && e.start == ReadUpTo(c.pos, done) && Proper(stream, c.reading, e)
    ensures Linked(stream, c, done + [e])
  {
    hide Proper;
    var all := done + [e];
    forall j | 0 <= j < |all|
      ensures all[j].id == c.num + j + 1 && all[j].start == ReadUpTo(c.pos, all[..j])
      ensures Proper(stream, c.reading, all[j])
    {
      assert all[..j] == done[..j];
      if j == |done| { assert done[..j] == done; }
    }
  }

  /** Every run of requests over every stream: ids count up, the requests read adjoining parts of the stream, and each
      is proper; the handler has got every notification of the part read so far, once and in order. */
  lemma {:induction false} EveryRun(stream: nat -> Incoming, c: Client, requests: seq<Request>)
    ensures var (c', done) := Run(stream, c, requests);
      && c'.num == c.num + |requests| && |done| == |requests|
      && (forall j :: 0 <= j < |done| ==> done[j].request == requests[j])
      && Linked(stream, c, done) && c.pos <= c'.pos == ReadUpTo(c.pos, done)
      && c'.notices == (if c.handler then c.notices + Notices(stream, c.pos, c'.pos) else c.notices)
      && c'.handler == c.handler && c'.reading == c.reading
    decreases |requests|
  {
    hide Proper;
    hide Next;
    hide Linked;
    hide Notices;
    if requests == [] {
      NothingRead(stream, c);
    } else {
      var n := |requests| - 1;
      EveryRun(stream, c, requests[..n]);
      var (mid, done) := Run(stream, c, requests[..n]);
      var (last, outcome) := Next(stream, mid, requests[n]);
      NextIsProper(stream, mid, requests[n]);
      NextMovesOn(stream, mid, requests[n]);
      LinkOne(stream, c, done, Exchange(requests[n], last.num, mid.pos, last.pos, outcome));
      NoticesSplit(stream, c.pos, mid.pos, last.pos);
      assert c.notices + Notices(stream, c.pos, mid.pos) + Notices(stream, mid.pos, last.pos)
        == c.notices + (Notices(stream, c.pos, mid.pos) + Notices(stream, mid.pos, last.pos));
    }
  }

  lemma NothingRead(stream: nat -> Incoming, c: Client)
    ensures Linked(stream, c, []) && Notices(stream, c.pos, c.pos) == []
  {
  }

  /** No answer goes to a request other than its own: whichever answers a run hands out, the message that carried it
      has the number of that request, and no message is read for two requests. */
  lemma AnswersAreOwn(stream: nat -> Incoming, c: Client, requests: seq<Request>, j: nat, k: nat)
    requires j < k < |requests|
    ensures var done := Run(stream, c, requests).1;
      && |done| == |requests|
      && done[j].end <= done[k].start
      && (FromPeer(done[k].outcome) ==> done[k].end > 0 && Bears(stream(done[k].end - 1), c.num + k + 1))
  {
    hide Run;
    hide Proper;
    hide Bears;
    hide IsEcho;
    hide FromPeer;
    EveryRun(stream, c, requests);
    var done := Run(stream, c, requests).1;
    StartsAfter(stream, c, done, j, k);
    AnswerBearsId(stream, c.reading, done[k]);
  }

  lemma {:induction false} StartsAfter(stream: nat -> Incoming, c: Client, done: seq<Exchange>, j: nat, k: nat)
    requires Linked(stream, c, done) && j < k < |done|
    ensures done[j].end <= done[k].start
    decreases k
  {
    AnswerBearsId(stream, c.reading, done[k - 1]);
    if j < k - 1 { StartsAfter(stream, c, done, j, k - 1); }
  }

  lemma NextMovesOn(stream: nat -> Incoming, c: Client, r: Request)
    ensures var c' := Next(stream, c, r).0; c.pos <= c'.pos && c'.handler == c.handler && c'.reading == c.reading
  {
  }

  // ---- The client object ----

  /** The session id a result decodes to; an absent or null one decodes to the empty string. */
  function SessionId(result: Json): Option<string> {
    if !result.JObject? then None
    else
      match Field(result.fields, "sessionId")
      case JString(id) => Some(id)
      case JNull => Some("")
      case _ => None
  }

  /** The session id and the success of a request for a new session that ends so. */
  function SessionAfter(outcome: Outcome, session: string): (string, bool) {
    match outcome
    case Replied(v) => if SessionId(v).Some? then (SessionId(v).value, true) else (session, false)
    case Empty => ("", true)
    case _ => (session, false)
  }

  class Connection {
    const stream: nat -> Incoming
    var num: int
    var pos: nat
    var reading: bool
    var handler: bool
    var notices: seq<Notification>
    var sessionId: string

    ghost function Abs(): Client
      reads this
    {
      Client(num, pos, reading, handler, notices)
    }

    constructor (stream: nat -> Incoming)
      ensures this.stream == stream && Abs() == Client(0, 0, false, false, []) && sessionId == ""
    {
      this.stream := stream;
      num, pos, reading, handler, notices, sessionId := 0, 0, false, false, [], "";
    }

    method SendRequest(r: Request) returns (outcome: Outcome)
      modifies `num, `pos, `notices
      ensures (Abs(), outcome) == Next(stream, old(Abs()), r)
    {
      hide Ends;
      hide IsEcho;
      hide Bears;
      hide IsFailure;
      hide Parses;
      hide Decides;
      hide Verdict;
      hide Notices;
      num := num + 1;
      if !r.written { return WriteFailed; }
      if !r.wanted { return Sent; }
      if !reading { return NoReader; }
      EndsAtFirst(stream, pos, num, Rounds(r));
      outcome := AwaitReply(num, r.deadline);
    }

    /** The bounded loop: reads until a message decides, the deadline has passed or the rounds are used up. */
    method AwaitReply(id: int, deadline: nat) returns (outcome: Outcome)
      modifies `pos, `notices
      ensures var n := Rounds(Request(true, true, deadline));
        && old(pos) <= pos <= old(pos) + n
        && (forall p :: old(pos) <= p < pos - 1 ==> !Decides(stream(p), id))
        && if old(pos) < pos && Decides(stream(pos - 1), id) then outcome == Verdict(stream(pos - 1))
           else pos == old(pos) + n && outcome == TimedOut
      ensures notices == if handler then old(notices) + Notices(stream, old(pos), pos) else old(notices)
    {
      hide Decides;
      hide Verdict;
      hide Notice;
      hide Notices;
      var withHandler := handler;
      NoNotices(stream, pos);
      for readCount := 0 to MAX_READS
        invariant pos == old(pos) + readCount && readCount <= deadline
        invariant notices == if handler then old(notices) + Notices(stream, old(pos), pos) else old(notices)
        invariant forall p :: old(pos) <= p < pos ==> !Decides(stream(p), id)
      {
        if readCount == deadline { return TimedOut; }
        var m := stream(pos);
        pos := pos + 1;
        OneMoreNotice(stream, old(pos), pos);
        var ended := Handle(m, id, withHandler);
        if ended.Some? { return ended.value; }
      }
      return TimedOut;
    }

    /** One round of the loop after its read: how the request ends, if it does. */
    method Handle(m: Incoming, id: int, withHandler: bool) returns (ended: Option<Outcome>)
      requires withHandler == handler
      modifies `notices
      ensures ended == if Decides(m, id) then Some(Verdict(m)) else None
      ensures notices == if handler then old(notices) + Notice(m) else old(notices)
    {
      match m {
        case EndOfFile => return Some(Ended);
        case ReadTimeout => return None;
        case ReadFailure => return Some(ReadFailed);
        case Unparsable => return Some(ParseFailed);
        case Line(value) =>
          if !value.JObject? && !value.JNull? { return Some(ParseFailed); }
          var response := Fields(m);
          if "id" !in response || response["id"] == JNull {
            if withHandler && "method" in response && response["method"].JString? {
              var params := if "params" in response then Some(response["params"]) else None;
              notices := notices + [Notification(response["method"].s, params)];
            }
            return None;
          }
          if response["id"] != JNumber(id as real) { return None; }
          if "method" in response && "result" !in response && "error" !in response { return None; }
          if "error" in response && response["error"] != JNull { return Some(Refused(response["error"])); }
          if "result" in response && response["result"] != JNull { return Some(Replied(response["result"])); }
          return Some(Empty);
      }
    }

    /** A new session takes its id from the reply; a reply without a result leaves the client without a session. */
    method NewSession(written: bool, deadline: nat) returns (ok: bool)
      modifies `num, `pos, `notices, `sessionId
      ensures var (c, outcome) := Next(stream, old(Abs()), Request(true, written, deadline));
        && Abs() == c
        && (sessionId, ok) == SessionAfter(outcome, old(sessionId))
      ensures !ok ==> sessionId == old(sessionId)
    {
      var outcome := SendRequest(Request(true, written, deadline));
      match outcome {
        case Replied(v) =>
          var id := SessionId(v);
          if id == None { return false; }
          sessionId := id.value;
          return true;
        case Empty => sessionId := ""; return true;
        case _ => return false;
      }
    }

    /** A prompt is sent and nothing is read for it; without a session not even a number is used. */
    method Prompt(written: bool) returns (outcome: Outcome)
      modifies `num, `pos, `notices
      ensures pos == old(pos) && notices == old(notices)
      ensures old(sessionId) == "" ==> outcome == NoSession && num == old(num)
      ensures old(sessionId) != "" ==>
        (Abs(), outcome) == Next(stream, old(Abs()), Request(false, written, 0)) && num == old(num) + 1
    {
      if sessionId == "" { return NoSession; }
      outcome := SendRequest(Request(false, written, 0));
    }
  }

  lemma NoNotices(stream: nat -> Incoming, start: nat)
    ensures Notices(stream, start, start) == []
  {
  }

  lemma OneMoreNotice(stream: nat -> Incoming, start: nat, end: nat)
    requires start < end
    ensures Notices(stream, start, end) == Notices(stream, start, end - 1) + Notice(stream(end - 1))
  {
  }
}
