/** Assembling messages from two row sets: parts are grouped by message id first, then each message takes its group. */
module OpenCodeJoin {
  import opened Json

  type Fields = map<string, Json>

  /** A row whose data does not decode to an object has none; null decodes to one without fields. */
  datatype MessageRow = MessageRow(id: string, data: Option<Fields>)
  datatype PartRow = PartRow(messageId: string, data: Option<Fields>)
  datatype ThreadMessage = ThreadMessage(role: string, text: string)

  type Groups = map<string, seq<PartRow>>

  function JoinLines(lines: seq<string>): string {
    if lines == [] then "" else if |lines| == 1 then lines[0] else lines[0] + "\n" + JoinLines(lines[1..])
  }

  function TextOf(fields: Fields, key: string): string {
    if key in fields && fields[key].JString? then fields[key].s else ""
  }

  // ---- Content that is kept in the message itself ----

  function BlockTexts(items: seq<Json>): seq<string> {
    if items == [] then []
    else
      var n := |items| - 1;
      BlockTexts(items[..n]) + BlockText(items[n])
  }

  /** The text of one content block, if it is a text block. */
  function BlockText(item: Json): seq<string> {
    if item.JObject? && "type" in item.fields && item.fields["type"] == JString("text")
       && "text" in item.fields && item.fields["text"].JString?
    then [item.fields["text"].s] else []
  }

  function ContentText(content: Json): string {
    match content
    case JString(s) => s
    case JArray(items) => JoinLines(BlockTexts(items))
    case _ => ""
  }

  method ExtractContentText(content: Json) returns (text: string)
    ensures text == ContentText(content)
  {
    match content {
      case JString(s) => return s;
      case JArray(items) =>
        var parts := [];
        for i := 0 to |items|
          invariant parts == BlockTexts(items[..i])
        {
          assert items[..i + 1][..i] == items[..i];
          if items[i].JObject? {
            var block := items[i].fields;
            if "type" in block && block["type"] == JString("text") {
              if "text" in block && block["text"].JString? {
                parts := parts + [block["text"].s];
              }
            }
          }
        }
        assert items[..|items|] == items;
        return JoinLines(parts);
      case _ => return "";
    }
  }

  // ---- The join by scanning ----

  /** The text a part gives the message, if it belongs to it and has any. */
  function PartText(part: PartRow, id: string): seq<string> {
    if part.messageId == id && part.data.Some? && TextOf(part.data.value, "text") != "" then
      [TextOf(part.data.value, "text")]
    else []
  }

  /** Looks through all parts, in order, for those of one message. */
  function ScanTexts(parts: seq<PartRow>, id: string): seq<string> {
    if parts == [] then []
    else
      var n := |parts| - 1;
      ScanTexts(parts[..n], id) + PartText(parts[n], id)
  }

  /** A message without text in its parts falls back to its own content. */
  function MessageText(fields: Fields, texts: seq<string>): string {
    if texts != [] then JoinLines(texts)
    else if "content" in fields then ContentText(fields["content"])
    else ""
  }

  /** What one row becomes: nothing when its data does not decode or its text is empty. */
  function Assemble(msg: MessageRow, parts: seq<PartRow>): seq<ThreadMessage> {
    if msg.data.None? then []
    else
      var fields := msg.data.value;
      var role := TextOf(fields, "role");
      var text := MessageText(fields, ScanTexts(parts, msg.id));
      if text == "" then [] else [ThreadMessage(if role == "" then "assistant" else role, text)]
  }

  function AssembleAll(msgs: seq<MessageRow>, parts: seq<PartRow>): seq<ThreadMessage>
    decreases |msgs|
  {
    if msgs == [] then []
    else
      var n := |msgs| - 1;
      AssembleAll(msgs[..n], parts) + Assemble(msgs[n], parts)
  }

  // ---- The join through the map ----

  /** The parts of one message. */
  function Group(parts: seq<PartRow>, id: string): seq<PartRow> {
    if parts == [] then []
    else
      var n := |parts| - 1;
      Group(parts[..n], id) + (if parts[n].messageId == id then [parts[n]] else [])
  }

  ghost predicate Grouped(groups: Groups, parts: seq<PartRow>) {
    forall id :: Group(parts, id) == if id in groups then groups[id] else []
  }

  method GroupParts(parts: seq<PartRow>) returns (groups: Groups)
    ensures Grouped(groups, parts)
  {
    groups := map[];
    for i := 0 to |parts|
      invariant Grouped(groups, parts[..i])
    {
      assert parts[..i + 1][..i] == parts[..i];
      var part := parts[i];
      var group := if part.messageId in groups then groups[part.messageId] else [];
      groups := groups[part.messageId := group + [part]];
    }
    assert parts[..|parts|] == parts;
  }

  /** Scanning a message's own group finds what scanning all parts finds. */
  lemma {:induction false} GroupHasTheTexts(parts: seq<PartRow>, id: string)
    ensures ScanTexts(Group(parts, id), id) == ScanTexts(parts, id)
    ensures forall p :: p in Group(parts, id) ==> p.messageId == id
  {
    if parts != [] {
      var n := |parts| - 1;
      GroupHasTheTexts(parts[..n], id);
      var g := Group(parts[..n], id);
      if parts[n].messageId == id {
        assert (g + [parts[n]])[..|g|] == g;
      } else {
        assert g + [] == g && ScanTexts(parts[..n], id) + [] == ScanTexts(parts[..n], id);
      }
    }
  }

  lemma ScanStep(parts: seq<PartRow>, i: nat, id: string)
    requires i <= |parts|
    ensures i == 0 ==> ScanTexts(parts[..i], id) == []
    ensures i > 0 ==> ScanTexts(parts[..i], id) == ScanTexts(parts[..i - 1], id) + PartText(parts[i - 1], id)
  {
    if i > 0 { assert parts[..i][..i - 1] == parts[..i - 1]; }
  }

  method TextsOfGroup(group: seq<PartRow>, ghost id: string) returns (texts: seq<string>)
    requires forall p :: p in group ==> p.messageId == id
    ensures texts == ScanTexts(group, id)
  {
    hide ScanTexts;
    texts := [];
    ScanStep(group, 0, id);
    for i := 0 to |group|
      invariant texts == ScanTexts(group[..i], id)
    {
      ScanStep(group, i + 1, id);
      assert group[i] in group;
      if group[i].data.Some? {
        var t := TextOf(group[i].data.value, "text");
        if t != "" {
          texts := texts + [t];
        }
      }
    }
    assert group[..|group|] == group;
  }

  /** Grouping first gives exactly the messages that scanning all parts for each message gives. */
  method ReadMessages(msgs: seq<MessageRow>, parts: seq<PartRow>) returns (messages: seq<ThreadMessage>)
    ensures messages == AssembleAll(msgs, parts)
  {
    var partsByMsg := GroupParts(parts);
    messages := [];
    for i := 0 to |msgs|
      invariant messages == AssembleAll(msgs[..i], parts)
    {
      assert msgs[..i + 1][..i] == msgs[..i];
      var message := AssembleFromGroups(msgs[i], partsByMsg, parts);
      messages := messages + message;
    }
    assert msgs[..|msgs|] == msgs;
  }

  method AssembleFromGroups(msg: MessageRow, groups: Groups, ghost parts: seq<PartRow>)
    returns (message: seq<ThreadMessage>)
    requires Grouped(groups, parts)
    ensures message == Assemble(msg, parts)
  {
    if msg.data.None? { return []; }
    var fields := msg.data.value;
    var role := TextOf(fields, "role");
    if role == "" {
      role := "assistant";
    }
    var textParts := [];
    GroupHasTheTexts(parts, msg.id);
    assert Group(parts, msg.id) == if msg.id in groups then groups[msg.id] else [];
    if msg.id in groups {
      textParts := TextsOfGroup(groups[msg.id], msg.id);
    }
    assert textParts == ScanTexts(parts, msg.id);
    if textParts == [] && "content" in fields {
      var text := ExtractContentText(fields["content"]);
      textParts := [text];
    }
    var text := JoinLines(textParts);
    if text == "" { return []; }
    return [ThreadMessage(role, text)];
  }

  // ---- What a message shows ----

  lemma JoinOne(line: string)
    ensures JoinLines([line]) == line
  {
  }

  /** One line break between neighbours, and nothing moves. */
  lemma {:induction false} JoinAppend(a: seq<string>, b: seq<string>)
    requires a != [] && b != []
    ensures JoinLines(a + b) == JoinLines(a) + "\n" + JoinLines(b)
  {
    assert (a + b)[1..] == a[1..] + b;
    if |a| > 1 {
      JoinAppend(a[1..], b);
      assert a[0] + "\n" + (JoinLines(a[1..]) + "\n" + JoinLines(b))
        == a[0] + "\n" + JoinLines(a[1..]) + "\n" + JoinLines(b);
    } else {
      assert a[1..] + b == b;
    }
  }

  lemma {:induction false} ScanAppend(a: seq<PartRow>, b: seq<PartRow>, id: string)
    ensures ScanTexts(a + b, id) == ScanTexts(a, id) + ScanTexts(b, id)
  {
    hide PartText;
    hide ScanTexts;
    if b == [] {
      assert a + b == a && b == b[..0];
      ScanStep(b, 0, id);
    } else {
      var n := |b| - 1;
      ScanAppend(a, b[..n], id);
      ScanStep(a + b, |a| + n + 1, id);
      ScanStep(b, n + 1, id);
      assert (a + b)[..|a| + n + 1] == a + b && b[..n + 1] == b;
      assert (a + b)[..|a| + n] == a + b[..n];
    }
  }

  /** A row of this message whose data has a text, and it is not empty. */
  predicate HasText(part: PartRow, id: string, text: string) {
    && part.messageId == id && part.data.Some? && text != ""
    && "text" in part.data.value && part.data.value["text"] == JString(text)
  }

  /** Texts come from the rows that have one, and each of those gives its own. */
  lemma {:induction false} ScanFindsTexts(parts: seq<PartRow>, id: string)
    ensures forall t :: t in ScanTexts(parts, id) <==> exists k :: 0 <= k < |parts| && HasText(parts[k], id, t)
  {
    if parts != [] {
      var n := |parts| - 1;
      ScanFindsTexts(parts[..n], id);
      forall t ensures t in ScanTexts(parts, id) <==> exists k :: 0 <= k < |parts| && HasText(parts[k], id, t) {
        assert t in PartText(parts[n], id) <==> HasText(parts[n], id, t);
        if t in ScanTexts(parts[..n], id) {
          var k :| 0 <= k < n && HasText(parts[..n][k], id, t);
          assert HasText(parts[k], id, t);
        }
        if k :| 0 <= k < |parts| && HasText(parts[k], id, t) {
          if k < n { assert HasText(parts[..n][k], id, t); }
        }
      }
    }
  }

  /** A message with a text of its own among the parts shows one, and shows the same whatever its content is. */
  lemma PartsHideContent(msg: MessageRow, parts: seq<PartRow>, k: nat, text: string, content: Json)
    requires msg.data.Some? && k < |parts| && HasText(parts[k], msg.id, text)
    ensures |Assemble(msg, parts)| == 1
    ensures Assemble(msg, parts) == Assemble(MessageRow(msg.id, Some(msg.data.value["content" := content])), parts)
  {
    ScanFindsTexts(parts, msg.id);
    assert text in ScanTexts(parts, msg.id);
    var texts := ScanTexts(parts, msg.id);
    JoinIsNotEmpty(texts);
  }

  lemma {:induction false} JoinIsNotEmpty(texts: seq<string>)
    requires texts != [] && forall t :: t in texts ==> t != ""
    ensures JoinLines(texts) != ""
  {
    assert texts[0] in texts;
    if |texts| > 1 {
      assert JoinLines(texts)[0] == texts[0][0];
    }
  }

  /** A message row with a role, perhaps empty, and a content, perhaps none. */
  function Row(id: string, role: string, content: Option<Json>): MessageRow {
    MessageRow(id, Some(map["role" := JString(role)] +
                        (if content.Some? then map["content" := content.value] else map[])))
  }

  function ShownRole(role: string): string {
    if role == "" then "assistant" else role
  }

  /** Two parts with text, with any other rows around them that have none for this message, are its two lines. */
  lemma TwoPartsAreTwoLines(id: string, role: string, content: Option<Json>, a: seq<PartRow>, p: PartRow, b: seq<PartRow>,
                            q: PartRow, c: seq<PartRow>, first: string, second: string)
    requires HasText(p, id, first) && HasText(q, id, second)
    requires forall r, t :: r in a || r in b || r in c ==> !HasText(r, id, t)
    ensures Assemble(Row(id, role, content), a + [p] + b + [q] + c)
      == [ThreadMessage(ShownRole(role), first + "\n" + second)]
  {
    hide ScanTexts;
    hide HasText;
    NoTexts(a, id);
    NoTexts(b, id);
    NoTexts(c, id);
    OneText(p, id, first);
    OneText(q, id, second);
    ScanAppend(a, [p], id);
    ScanAppend(a + [p], b, id);
    ScanAppend(a + [p] + b, [q], id);
    ScanAppend(a + [p] + b + [q], c, id);
    assert ScanTexts(a + [p] + b + [q] + c, id) == [first, second];
    assert [first, second] == [first] + [second];
    JoinAppend([first], [second]);
    assert |first + "\n" + second| > 0;
  }

  lemma {:induction false} NoTexts(parts: seq<PartRow>, id: string)
    requires forall r, t :: r in parts ==> !HasText(r, id, t)
    ensures ScanTexts(parts, id) == []
  {
    if parts != [] {
      var n := |parts| - 1;
      NoTexts(parts[..n], id);
      assert parts[n] in parts;
      assert PartText(parts[n], id) != [] ==> HasText(parts[n], id, PartText(parts[n], id)[0]);
    }
  }

  lemma OneText(part: PartRow, id: string, text: string)
    requires HasText(part, id, text)
    ensures ScanTexts([part], id) == [text]
  {
    assert [part][..0] == [];
  }

  /** Without a text among the parts a message shows its content: a string as it is, of an array the strings of its text
      blocks on lines of their own; with no content, or none with text, it is left out. */
  lemma ContentIsFallback(id: string, role: string, content: Option<Json>, parts: seq<PartRow>)
    requires forall r, t :: r in parts ==> !HasText(r, id, t)
    ensures var shown := Assemble(Row(id, role, content), parts);
      && (content.None? ==> shown == [])
      && (content.Some? && content.value.JString? ==>
            shown == if content.value.s == "" then [] else [ThreadMessage(ShownRole(role), content.value.s)])
      && (content.Some? && content.value.JArray? ==>
            shown == if JoinLines(BlockTexts(content.value.items)) == "" then []
                     else [ThreadMessage(ShownRole(role), JoinLines(BlockTexts(content.value.items)))])
      && (content.Some? && !content.value.JString? && !content.value.JArray? ==> shown == [])
  {
    hide HasText;
    hide BlockTexts;
    NoTexts(parts, id);
  }

  /** Messages stand in the order of their rows. */
  lemma {:induction false} RowsInOrder(a: seq<MessageRow>, b: seq<MessageRow>, parts: seq<PartRow>)
    ensures AssembleAll(a + b, parts) == AssembleAll(a, parts) + AssembleAll(b, parts)
    decreases |b|
  {
    hide Assemble;
    hide AssembleAll;
    if b == [] {
      assert a + b == a;
      OneRow(parts);
    } else {
      var n := |b| - 1;
      RowsInOrder(a, b[..n], parts);
      RowsGrow(a + b[..n], b[n], parts);
      RowsGrow(b[..n], b[n], parts);
      assert a + b == (a + b[..n]) + [b[n]] && b == b[..n] + [b[n]];
    }
  }

  lemma RowsGrow(rows: seq<MessageRow>, row: MessageRow, parts: seq<PartRow>)
    ensures AssembleAll(rows + [row], parts) == AssembleAll(rows, parts) + Assemble(row, parts)
  {
    hide Assemble;
    assert (rows + [row])[..|rows|] == rows;
  }

  lemma OneRow(parts: seq<PartRow>)
    ensures AssembleAll([], parts) == []
    ensures forall row :: AssembleAll([row], parts) == Assemble(row, parts)
  {
    hide Assemble;
    forall row ensures AssembleAll([row], parts) == Assemble(row, parts) {
      RowsGrow([], row, parts);
      assert [] + [row] == [row];
    }
  }

  /** A content block of the type text, and what other members it may have. */
  function TextBlock(text: string, others: Fields): Json {
    JObject(others["type" := JString("text")]["text" := JString(text)])
  }

  lemma {:induction false} BlockAppend(a: seq<Json>, b: seq<Json>)
    ensures BlockTexts(a + b) == BlockTexts(a) + BlockTexts(b)
  {
    hide BlockText;
    hide BlockTexts;
    NoBlocks();
    if b == [] {
      assert a + b == a;
    } else {
      var n := |b| - 1;
      BlockAppend(a, b[..n]);
      assert a + b == (a + b[..n]) + [b[n]] && b == b[..n] + [b[n]];
      BlocksGrow(a + b[..n], b[n]);
      BlocksGrow(b[..n], b[n]);
    }
  }

  lemma NoBlocks()
    ensures BlockTexts([]) == []
  {
  }

  lemma BlocksGrow(items: seq<Json>, item: Json)
    ensures BlockTexts(items + [item]) == BlockTexts(items) + BlockText(item)
  {
    hide BlockText;
    assert (items + [item])[..|items|] == items;
  }

  /** A text block gives its text, also an empty one; an object of another type, or without a string for its text, and
      anything else gives nothing. */
  lemma BlockGives(item: Json, text: string, others: Fields)
    ensures item == TextBlock(text, others) ==> BlockTexts([item]) == [text]
    ensures BlockTexts([item]) != [] ==> item.JObject? && item == TextBlock(BlockTexts([item])[0], item.fields)
  {
    assert [item][..0] == [];
    assert BlockTexts([item]) == BlockTexts([]) + BlockText(item) == BlockText(item);
    if BlockText(item) != [] {
      var f := item.fields;
      assert f["text"] == JString(BlockText(item)[0]);
      assert f["type" := JString("text")]["text" := f["text"]] == f;
    }
  }

  // ---- What the join depends on ----

  /** Only a message's own parts and their order matter: two part sets with the same group for every message give the
      same conversation, however the groups are interleaved and whatever other parts there are. */
  lemma {:induction false} OnlyGroupsMatter(msgs: seq<MessageRow>, a: seq<PartRow>, b: seq<PartRow>)
    requires forall msg :: msg in msgs ==> Group(a, msg.id) == Group(b, msg.id)
    ensures AssembleAll(msgs, a) == AssembleAll(msgs, b)
    decreases |msgs|
  {
    if msgs != [] {
      var n := |msgs| - 1;
      OnlyGroupsMatter(msgs[..n], a, b);
      GroupHasTheTexts(a, msgs[n].id);
      GroupHasTheTexts(b, msgs[n].id);
      assert Group(a, msgs[n].id) == Group(b, msgs[n].id);
    }
  }
}
