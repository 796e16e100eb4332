/** What the messages of a walk say: the texts of each blob in field order, one line break between neighbours. */
module BlobMessages {
  import opened Varint
  import opened ProtobufScan
  import opened BlobWalk
  import opened ScannedText

  // ---- Joining ----

  lemma JoinOne(t: Bytes)
    ensures Join([t]) == t
  {
  }

  /** One line break, byte 10, between neighbours, and nothing moves. */
  lemma {:induction false} JoinAppend(a: seq<Bytes>, b: seq<Bytes>)
    requires a != [] && b != []
    ensures Join(a + b) == Join(a) + [10] + Join(b)
  {
    assert (a + b)[1..] == a[1..] + b;
    if |a| > 1 {
      JoinAppend(a[1..], b);
      assert a[0] + [10] + (Join(a[1..]) + [10] + Join(b)) == a[0] + [10] + Join(a[1..]) + [10] + Join(b);
    } else {
      assert a[1..] + b == b;
    }
  }

  /** Splitting at line breaks. */
  function Lines(data: Bytes): (lines: seq<Bytes>)
    ensures lines != []
  {
    if data == [] then [[]]
    else
      var rest := Lines(data[1..]);
      if data[0] == 10 then [[]] + rest else [[data[0]] + rest[0]] + rest[1..]
  }

  /** Splitting gives the texts back when none of them holds a line break. */
  lemma {:induction false} LinesOfJoin(texts: seq<Bytes>)
    requires texts != [] && forall t :: t in texts ==> 10 !in t
    ensures Lines(Join(texts)) == texts
  {
    if |texts| == 1 {
      LinesOfOne(texts[0]);
    } else {
      var rest := texts[1..];
      LinesOfJoin(rest);
      JoinAppend([texts[0]], rest);
      assert [texts[0]] + rest == texts;
      LinesOfTwo(texts[0], Join(rest));
    }
  }

  lemma {:induction false} LinesOfOne(t: Bytes)
    requires 10 !in t
    ensures Lines(t) == [t]
  {
    if t != [] {
      LinesOfOne(t[1..]);
      assert [t[0]] + t[1..] == t;
    }
  }

  lemma {:induction false} LinesOfTwo(t: Bytes, rest: Bytes)
    requires 10 !in t
    ensures Lines(t + [10] + rest) == [t] + Lines(rest)
  {
    var all := t + [10] + rest;
    if t == [] {
      assert all == [10] + rest;
      assert all[0] == 10 && all[1..] == rest;
      assert Lines(all) == [[]] + Lines(rest);
    } else {
      LinesOfTwo(t[1..], rest);
      assert all[1..] == t[1..] + [10] + rest;
      assert [t[0]] + t[1..] == t;
    }
  }

  // ---- The messages of a walk ----

  /** The blobs of the order that have text. */
  function Speaking(store: Store, order: seq<BlobId>): seq<BlobId> {
    if order == [] then []
    else (if TextsAt(store, order[0]) == [] then [] else [order[0]]) + Speaking(store, order[1..])
  }

  /** A message of a blob that has text: its texts joined, under the root's role or the assistant's. */
  ghost predicate Says(store: Store, id: BlobId, root: BlobId, role: Role, message: ThreadMessage) {
    && TextsAt(store, id) != [] && message.text == Join(TextsAt(store, id))
    && message.role == if id == root then role else RoleAssistant
  }

  /** One message for each of them, in order. */
  lemma {:induction false} OneMessageEach(store: Store, order: seq<BlobId>, root: BlobId, role: Role)
    ensures |MessagesOf(store, order, root, role)| == |Speaking(store, order)|
    ensures forall k :: 0 <= k < |Speaking(store, order)| ==>
      Says(store, Speaking(store, order)[k], root, role, MessagesOf(store, order, root, role)[k])
  {
    hide Says;
    hide Speaking;
    hide MessagesOf;
    SpeakingStep(store, order, root, role);
    if order != [] {
      OneMessageEach(store, order[1..], root, role);
      var ids, messages := Speaking(store, order), MessagesOf(store, order, root, role);
      if TextsAt(store, order[0]) != [] {
        forall k | 0 <= k < |ids| ensures Says(store, ids[k], root, role, messages[k]) {
          if k > 0 { assert ids[k] == ids[1..][k - 1] && messages[k] == messages[1..][k - 1]; }
        }
      }
    }
  }

  lemma SpeakingStep(store: Store, order: seq<BlobId>, root: BlobId, role: Role)
    ensures order == [] ==> Speaking(store, order) == [] && MessagesOf(store, order, root, role) == []
    ensures order != [] ==>
      var ids, messages := Speaking(store, order), MessagesOf(store, order, root, role);
      var moreIds, more := Speaking(store, order[1..]), MessagesOf(store, order[1..], root, role);
      if TextsAt(store, order[0]) == [] then ids == moreIds && messages == more
      else
        && ids != [] && messages != [] && ids[1..] == moreIds && messages[1..] == more
        && Says(store, ids[0], root, role, messages[0])
  {
    hide TextsAt;
    hide Join;
    hide Says;
    hide MessageOf;
    if order != [] {
      var m, more := MessageOf(store, order[0], root, role), MessagesOf(store, order[1..], root, role);
      assert MessagesOf(store, order, root, role) == m + more;
      OneMessage(store, order[0], root, role);
      if m == [] { assert m + more == more; } else { assert (m + more)[1..] == more; }
      assert [] + Speaking(store, order[1..]) == Speaking(store, order[1..]);
    }
  }

  lemma OneMessage(store: Store, id: BlobId, root: BlobId, role: Role)
    ensures var m := MessageOf(store, id, root, role);
      if TextsAt(store, id) == [] then m == [] else |m| == 1 && Says(store, id, root, role, m[0])
  {
    hide TextsAt;
    hide Join;
  }

  // ---- Whole walks ----

  /** A text of visible characters and inner spaces. */
  ghost predicate Plain(text: Bytes) {
    Readable([], text, [])
  }

  function TextFields(texts: seq<Bytes>): (fields: seq<Field>)
    ensures |fields| == |texts| && forall k :: 0 <= k < |texts| ==> fields[k] == Delimited(1, texts[k])
  {
    if texts == [] then [] else [Delimited(1, texts[0])] + TextFields(texts[1..])
  }

  lemma PlainIsText(t: Bytes)
    requires Plain(t)
    ensures Contribution(Delimited(1, t)) == Text(t)
  {
    hide Contribution;
    ReadableIsText(1, [], t, []);
    assert [] + t + [] == t;
  }

  lemma {:induction false} PlainTextsOf(texts: seq<Bytes>, more: seq<Field>)
    requires forall t :: t in texts ==> Plain(t)
    ensures TextsOf(TextFields(texts) + more) == texts + TextsOf(more)
    ensures RefsOf(TextFields(texts) + more) == RefsOf(more)
  {
    hide TextsOf;
    hide RefsOf;
    hide Plain;
    hide TextFields;
    hide Contribution;
    if texts == [] {
      assert TextFields(texts) + more == more;
    } else {
      var first, others := texts[0], texts[1..];
      PlainIsText(first) by { assert first in texts; }
      PlainTextsOf(others, more);
      FieldsFront(texts, more);
      OneFieldMore(Delimited(1, first), TextFields(others) + more);
      assert texts == [first] + others;
      Regroup([first], others, TextsOf(more));
    }
  }

  lemma FieldsFront(texts: seq<Bytes>, more: seq<Field>)
    requires texts != []
    ensures TextFields(texts) + more == [Delimited(1, texts[0])] + (TextFields(texts[1..]) + more)
  {
  }

  lemma Regroup<T>(a: seq<T>, b: seq<T>, c: seq<T>)
    ensures a + (b + c) == (a + b) + c
  {
  }

  lemma OneFieldMore(f: Field, rest: seq<Field>)
    ensures Contribution(f).Text? ==>
      TextsOf([f] + rest) == [Contribution(f).text] + TextsOf(rest) && RefsOf([f] + rest) == RefsOf(rest)
  {
    hide Contribution;
    assert ([f] + rest)[1..] == rest;
  }

  /** What scanning a blob of plain texts, followed by references, gives. */
  lemma PlainBlobScans(texts: seq<Bytes>, refs: seq<Bytes>)
    requires forall t :: t in texts ==> Plain(t)
    requires forall r :: r in refs ==> |r| == 32
    ensures var r := Scan(EncodeMessage(TextFields(texts) + TextFields(refs)));
      r.Scanned? && r.texts == texts && |r.refs| == |refs| && forall k :: 0 <= k < |refs| ==> r.refs[k] == Hex(refs[k])
  {
    hide Scan;
    hide EncodeMessage;
    hide TextsOf;
    hide RefsOf;
    hide Hex;
    hide Plain;
    hide WellFormed;
    hide TextFields;
    var fields := TextFields(texts) + TextFields(refs);
    FieldsAreWellFormed(texts, refs);
    ScanEncodedMessage(fields);
    PlainTextsOf(texts, TextFields(refs));
    RefFields(refs);
    assert texts + [] == texts;
  }

  lemma FieldsAreWellFormed(texts: seq<Bytes>, refs: seq<Bytes>)
    requires forall t :: t in texts ==> Plain(t)
    requires forall r :: r in refs ==> |r| == 32
    ensures forall f :: f in TextFields(texts) + TextFields(refs) ==> WellFormed(f)
  {
    hide Plain;
    hide TextFields;
    forall t | t in texts ensures |t| < TWO_TO_63 { PlainIsShort(t); }
    forall f | f in TextFields(texts) + TextFields(refs) ensures WellFormed(f) {
      if f in TextFields(texts) {
        var k :| 0 <= k < |texts| && TextFields(texts)[k] == f;
        assert texts[k] in texts;
      } else {
        var k :| 0 <= k < |refs| && TextFields(refs)[k] == f;
        assert refs[k] in refs;
      }
    }
  }

  lemma PlainIsShort(t: Bytes)
    requires Plain(t)
    ensures |t| < TWO_TO_63
  {
    assert [] + t + [] == t;
  }

  lemma {:induction false} RefFields(refs: seq<Bytes>)
    requires forall r :: r in refs ==> |r| == 32
    ensures TextsOf(TextFields(refs)) == []
    ensures |RefsOf(TextFields(refs))| == |refs|
    ensures forall k :: 0 <= k < |refs| ==> RefsOf(TextFields(refs))[k] == Hex(refs[k])
  {
    hide Hex;
    hide TextsOf;
    hide RefsOf;
    hide TextFields;
    if refs == [] {
      NoFields();
    } else {
      var first, others := refs[0], refs[1..];
      assert first in refs;
      RefFields(others);
      RefFront(refs);
    }
  }

  lemma NoFields()
    ensures TextFields([]) == [] && TextsOf([]) == [] && RefsOf([]) == []
  {
  }

  lemma RefFront(refs: seq<Bytes>)
    requires refs != [] && |refs[0]| == 32
    ensures TextsOf(TextFields(refs)) == TextsOf(TextFields(refs[1..]))
    ensures RefsOf(TextFields(refs)) == [Hex(refs[0])] + RefsOf(TextFields(refs[1..]))
  {
    hide Hex;
    assert TextFields(refs)[1..] == TextFields(refs[1..]);
  }

  /** A walk over one blob of plain texts yields one message of the user, whose lines are the texts in field order. */
  lemma PlainBlobIsOneMessage(store: Store, root: BlobId, texts: seq<Bytes>)
    requires texts != [] && (forall t :: t in texts ==> Plain(t))
    requires root in store && store[root] == EncodeMessage(TextFields(texts))
    ensures var messages := MessagesOf(store, PreOrder(store, [root], {}), root, RoleUser);
      |messages| == 1 && messages[0].role == RoleUser && Lines(messages[0].text) == texts
  {
    hide Scan;
    hide EncodeMessage;
    hide Join;
    PlainBlobScans(texts, []);
    assert TextFields(texts) + TextFields([]) == TextFields(texts);
    assert TextsAt(store, root) == texts && Children(store, root) == [];
    PreOrderOne(store, root, {}, RoleUser);
    NoWork(store, {root}, root);
    assert {} + {root} == {root};
    forall t | t in texts ensures 10 !in t { assert Plain(t); }
    LinesOfJoin(texts);
  }

  lemma NoWork(store: Store, seen: set<BlobId>, root: BlobId)
    ensures PreOrder(store, [], seen) == [] && MessagesOf(store, [], root, RoleUser) == []
  {
  }

  function Ids(children: seq<Bytes>): (ids: seq<BlobId>)
    ensures |ids| == |children| && forall k :: 0 <= k < |ids| ==> ids[k] == Hex(children[k])
  {
    if children == [] then [] else [Hex(children[0])] + Ids(children[1..])
  }

  /** A walk over a blob that refers to others yields the user's message and then one of the assistant's for each, in the
      order of the references. */
  lemma ParentThenChildren(store: Store, root: BlobId, text: Bytes, children: seq<Bytes>, texts: seq<Bytes>)
    requires Plain(text) && |children| == |texts|
    requires forall k :: 0 <= k < |texts| ==> Plain(texts[k]) && |children[k]| == 32 && Hex(children[k]) != root
    requires forall j, k :: 0 <= j < k < |children| ==> children[j] != children[k]
    requires root in store && store[root] == EncodeMessage(TextFields([text]) + TextFields(children))
    requires forall k :: 0 <= k < |texts| ==>
      Hex(children[k]) in store && store[Hex(children[k])] == EncodeMessage(TextFields([texts[k]]))
    ensures var messages := MessagesOf(store, PreOrder(store, [root], {}), root, RoleUser);
      && |messages| == 1 + |texts| && messages[0] == ThreadMessage(RoleUser, text)
      && forall k :: 0 <= k < |texts| ==> messages[1 + k] == ThreadMessage(RoleAssistant, texts[k])
  {
    hide Scan;
    hide EncodeMessage;
    hide Hex;
    hide PreOrder;
    hide MessagesOf;
    hide TextFields;
    hide Plain;
    var ids := Ids(children);
    PlainBlobScans([text], children);
    forall k | 0 <= k < |texts| ensures Leaf(store, ids[k], texts[k]) && ids[k] !in {root} {
      SayOnly(store, ids[k], texts[k]);
    }
    forall j, k | 0 <= j < k < |ids| ensures ids[j] != ids[k] {
      if ids[j] == ids[k] { HexInjective(children[j], children[k]); }
    }
    assert Children(store, root) == ids && TextsAt(store, root) == [text];
    PreOrderOne(store, root, {}, RoleUser);
    assert {} + {root} == {root};
    LeavesInOrder(store, ids, texts, {root}, root);
    JoinOne(text);
  }

  ghost predicate Leaf(store: Store, id: BlobId, text: Bytes) {
    TextsAt(store, id) == [text] && Children(store, id) == []
  }

  lemma {:induction false} LeavesInOrder(store: Store, ids: seq<BlobId>, texts: seq<Bytes>, seen: set<BlobId>, root: BlobId)
    requires |ids| == |texts| && root in seen
    requires forall k :: 0 <= k < |ids| ==> Leaf(store, ids[k], texts[k]) && ids[k] !in seen
    requires forall j, k :: 0 <= j < k < |ids| ==> ids[j] != ids[k]
    ensures PreOrder(store, ids, seen) == ids
    ensures var messages := MessagesOf(store, ids, root, RoleUser);
      |messages| == |ids| && forall k :: 0 <= k < |ids| ==> messages[k] == ThreadMessage(RoleAssistant, texts[k])
    decreases |ids|
  {
    hide Scan;
    hide Leaf;
    hide TextsAt;
    hide Children;
    hide Join;
    if ids != [] {
      LeavesInOrder(store, ids[1..], texts[1..], seen + {ids[0]}, root);
      LeafStep(store, ids, texts[0], seen, root);
    }
  }

  lemma LeafStep(store: Store, ids: seq<BlobId>, text: Bytes, seen: set<BlobId>, root: BlobId)
    requires ids != [] && Leaf(store, ids[0], text) && ids[0] !in seen && ids[0] != root
    ensures PreOrder(store, ids, seen) == [ids[0]] + PreOrder(store, ids[1..], seen + {ids[0]})
    ensures MessagesOf(store, ids, root, RoleUser)
      == [ThreadMessage(RoleAssistant, text)] + MessagesOf(store, ids[1..], root, RoleUser)
  {
    hide TextsAt;
    hide Children;
    assert [] + ids[1..] == ids[1..];
    JoinOne(text);
  }

  lemma SayOnly(store: Store, id: BlobId, text: Bytes)
    requires Plain(text) && id in store && store[id] == EncodeMessage(TextFields([text]))
    ensures Leaf(store, id, text)
  {
    hide Scan;
    hide EncodeMessage;
    hide Plain;
    PlainBlobScans([text], []);
    assert TextFields([text]) + TextFields([]) == TextFields([text]);
  }
}
