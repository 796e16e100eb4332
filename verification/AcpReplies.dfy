/** How a request ends for the messages that JSON-RPC 2.0 defines: response objects (its section 5), notifications
    (section 4.1) and what is neither, each as it stands on the stream. */
module AcpReplies {
  import opened Json
  import opened AcpClient

  /** A response object: an id and a result, an error, both or none, and any further members. */
  datatype Response = Response(id: int, result: Option<Json>, error: Option<Json>, others: map<string, Json>)

  function Member(name: string, value: Option<Json>): map<string, Json> {
    if value.Some? then map[name := value.value] else map[]
  }

  function Encode(r: Response): Incoming {
    Line(JObject(r.others - {"id", "result", "error"} + map["id" := JNumber(r.id as real)]
                 + Member("result", r.result) + Member("error", r.error)))
  }

  /** Not a request that the peer sends back: it has a result or an error, or it has no method. */
  predicate IsResponse(r: Response) {
    r.result.Some? || r.error.Some? || "method" !in r.others
  }

  predicate Given(value: Option<Json>) {
    value.Some? && value.value != JNull
  }

  lemma EncodedFields(r: Response)
    ensures var f := Encode(r).value.fields;
      && "id" in f && f["id"] == JNumber(r.id as real)
      && ("result" in f <==> r.result.Some?) && (r.result.Some? ==> f["result"] == r.result.value)
      && ("error" in f <==> r.error.Some?) && (r.error.Some? ==> f["error"] == r.error.value)
      && ("method" in f <==> "method" in r.others)
  {
  }

  // ---- What a request reads past ----

  /** A read that times out, a null, and an object without an id, with another id, or with a method but neither a
      result nor an error. */
  predicate PassedOver(m: Incoming, id: int) {
    m == ReadTimeout || m == Line(JNull) ||
    (m.Line? && m.value.JObject? &&
     var f := m.value.fields;
     || "id" !in f || f["id"] != JNumber(id as real)
     || ("method" in f && "result" !in f && "error" !in f))
  }

  lemma PassedOverOrDecides(m: Incoming, id: int)
    ensures PassedOver(m, id) <==> !Decides(m, id)
  {
  }

  lemma EndsPastOver(stream: nat -> Incoming, pos: nat, id: int, n: nat)
    ensures var k := Ends(stream, pos, id, n);
      && (forall p :: pos <= p < pos + k ==> PassedOver(stream(p), id))
      && (k < n ==> !PassedOver(stream(pos + k), id))
  {
    hide PassedOver;
    hide Decides;
    EndsAtFirst(stream, pos, id, n);
    var k := Ends(stream, pos, id, n);
    forall p | pos <= p < pos + k ensures PassedOver(stream(p), id) {
      PassedOverOrDecides(stream(p), id);
    }
    PassedOverOrDecides(stream(pos + k), id);
  }

  /** The first `k` reads of the request that the client makes next are passed over, and it gets to one more read. */
  ghost predicate Reaches(stream: nat -> Incoming, c: Client, r: Request, k: nat) {
    && r.written && r.wanted && c.reading && k < r.deadline && k < 30
    && forall p :: c.pos <= p < c.pos + k ==> PassedOver(stream(p), c.num + 1)
  }

  lemma EndsThere(stream: nat -> Incoming, c: Client, r: Request, k: nat)
    requires Reaches(stream, c, r, k) && !PassedOver(stream(c.pos + k), c.num + 1)
    ensures var (c', outcome) := Next(stream, c, r);
      c'.pos == c.pos + k + 1 && c'.num == c.num + 1 && outcome == Verdict(stream(c.pos + k))
  {
    hide PassedOver;
    hide Decides;
    hide Verdict;
    EndsPastOver(stream, c.pos, c.num + 1, Rounds(r));
    assert Ends(stream, c.pos, c.num + 1, Rounds(r)) == k;
  }

  /** The first response with the request's own id is its outcome: its error if it has one that is not null, else its
      result if that is not null, else nothing. */
  lemma ResponseIsOutcome(stream: nat -> Incoming, c: Client, r: Request, k: nat, response: Response)
    requires Reaches(stream, c, r, k) && stream(c.pos + k) == Encode(response)
    requires response.id == c.num + 1 && IsResponse(response)
    ensures var (c', outcome) := Next(stream, c, r);
      && c'.pos == c.pos + k + 1 && c'.num == c.num + 1
      && outcome == (if Given(response.error) then Refused(response.error.value)
                     else if Given(response.result) then Replied(response.result.value)
                     else Empty)
  {
    hide Encode;
    hide Next;
    EncodedFields(response);
    assert Encode(response).Line? && Encode(response).value.JObject? by { EncodesObject(response); }
    EndsThere(stream, c, r, k);
  }

  lemma EncodesObject(response: Response)
    ensures Encode(response).Line? && Encode(response).value.JObject?
  {
  }

  /** So does the first read that fails, and the first line that is neither an object nor null. */
  lemma FailureIsOutcome(stream: nat -> Incoming, c: Client, r: Request, k: nat)
    requires Reaches(stream, c, r, k)
    ensures var m, (c', outcome) := stream(c.pos + k), Next(stream, c, r);
      && (m == EndOfFile ==> outcome == Ended)
      && (m == ReadFailure ==> outcome == ReadFailed)
      && (m == Unparsable ==> outcome == ParseFailed)
      && (m.Line? && !m.value.JObject? && !m.value.JNull? ==> outcome == ParseFailed)
  {
    hide Next;
    if !PassedOver(stream(c.pos + k), c.num + 1) {
      EndsThere(stream, c, r, k);
    }
  }

  /** Thirty reads that are passed over, or fewer up to the deadline, and the request has timed out. */
  lemma SilenceTimesOut(stream: nat -> Incoming, c: Client, r: Request)
    requires r.written && r.wanted && c.reading
    ensures var n := if r.deadline < 30 then r.deadline else 30;
      (forall p :: c.pos <= p < c.pos + n ==> PassedOver(stream(p), c.num + 1)) <==>
      Next(stream, c, r).1 == TimedOut
    ensures Next(stream, c, r).1 == TimedOut ==>
      Next(stream, c, r).0.pos == c.pos + if r.deadline < 30 then r.deadline else 30
  {
    hide PassedOver;
    hide Decides;
    hide Verdict;
    var id, n := c.num + 1, Rounds(r);
    EndsPastOver(stream, c.pos, id, n);
    var k := Ends(stream, c.pos, id, n);
    if k < n {
      PassedOverOrDecides(stream(c.pos + k), id);
      NotATimeout(stream(c.pos + k), id);
    }
  }

  lemma NotATimeout(m: Incoming, id: int)
    requires Decides(m, id)
    ensures Verdict(m) != TimedOut
  {
  }

  // ---- Notifications ----

  /** A notification: a method and perhaps parameters, no id or a null one, and any further members. */
  function EncodeNotification(n: Notification, nullId: bool, others: map<string, Json>): Incoming {
    Line(JObject(others - {"id", "method", "params"} + map["method" := JString(n.name)]
                 + Member("params", n.params) + Member("id", if nullId then Some(JNull) else None)))
  }

  /** A notification reaches the handler as it was sent; a message with an id, or without the name of a method, does not,
      and neither does a failed read. */
  lemma NotificationIsNotice(m: Incoming, n: Notification, nullId: bool, others: map<string, Json>)
    ensures m == EncodeNotification(n, nullId, others) ==> Notice(m) == [n]
    ensures Notice(m) != [] ==>
      && m.Line? && m.value.JObject?
      && ("id" in m.value.fields ==> m.value.fields["id"] == JNull)
      && "method" in m.value.fields && m.value.fields["method"].JString?
  {
    if m == EncodeNotification(n, nullId, others) {
      var f := m.value.fields;
      assert "method" in f && f["method"] == JString(n.name);
      assert "params" in f <==> n.params.Some?;
      assert "id" in f ==> f["id"] == JNull;
    }
  }

  /** Those of a part of the stream stand in its order. */
  lemma NoticesInOrder(stream: nat -> Incoming, start: nat, end: nat)
    requires start < end
    ensures Notices(stream, start, end) == Notice(stream(start)) + Notices(stream, start + 1, end)
  {
    hide Notice;
    NoticesSplit(stream, start, start + 1, end);
    assert Notices(stream, start, start) == [];
    assert [] + Notice(stream(start)) == Notice(stream(start));
  }

  // ---- Sessions ----

  /** What a request for a new session makes of the response: an error never opens a session and leaves the one there
      is; an object names the session by the string under `sessionId`, an absent or null one by the empty string; any
      other result fails and leaves the session; no result at all leaves the client without one. */
  lemma NewSessionByResponse(stream: nat -> Incoming, c: Client, deadline: nat, k: nat, response: Response, session: string)
    requires Reaches(stream, c, Request(true, true, deadline), k) && stream(c.pos + k) == Encode(response)
    requires response.id == c.num + 1 && IsResponse(response)
    ensures var (session', ok) := SessionAfter(Next(stream, c, Request(true, true, deadline)).1, session);
      if Given(response.error) then !ok && session' == session
      else if !Given(response.result) then ok && session' == ""
      else
        match response.result.value
        case JObject(fields) =>
          if "sessionId" !in fields || fields["sessionId"] == JNull then ok && session' == ""
          else if fields["sessionId"].JString? then ok && session' == fields["sessionId"].s
          else !ok && session' == session
        case _ => !ok && session' == session
  {
    hide Next;
    hide Reaches;
    hide Encode;
    ResponseIsOutcome(stream, c, Request(true, true, deadline), k, response);
  }

  /** A failed write, a failed read, a line that does not parse and a timeout leave the session too. */
  lemma NewSessionWithoutResponse(stream: nat -> Incoming, c: Client, written: bool, deadline: nat, session: string)
    requires var outcome := Next(stream, c, Request(true, written, deadline)).1;
      !outcome.Replied? && !outcome.Empty?
    ensures SessionAfter(Next(stream, c, Request(true, written, deadline)).1, session) == (session, false)
  {
  }
}
