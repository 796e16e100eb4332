/** The protobuf wire-format scanner of the Cursor blob reader, proved against the encoder of the
    Protocol Buffers Encoding specification, section "Message Structure". */
module ProtobufScan {
  import opened Varint

  type Bytes = seq<byte>

  // ---- Text heuristics ----

  predicate IsPrintable(b: byte) {
    32 <= b < 127 || b == 10 || b == 13 || b == 9 || b >= 128
  }

  function Printables(data: Bytes): (p: Bytes)
    ensures |p| <= |data|
  {
    if data == [] then []
    else (if IsPrintable(data[0]) then [data[0]] else []) + Printables(data[1..])
  }

  /** More than four fifths of a non-empty payload are printable. */
  predicate MostlyPrintable(data: Bytes) {
    data != [] && 5 * |Printables(data)| > 4 * |data|
  }

  lemma {:induction false} PrintablesAppend(data: Bytes, b: byte)
    ensures Printables(data + [b]) == Printables(data) + (if IsPrintable(b) then [b] else [])
  {
    if data != [] {
      assert (data + [b])[1..] == data[1..] + [b];
      PrintablesAppend(data[1..], b);
    } else {
      assert (data + [b])[1..] == [];
    }
  }

  method IsMostlyPrintable(data: Bytes) returns (r: bool)
    ensures r == MostlyPrintable(data)
  {
    if |data| == 0 { return false; }
    var printable := 0;
    for i := 0 to |data|
      invariant printable == |Printables(data[..i])|
    {
      assert data[..i + 1] == data[..i] + [data[i]];
      PrintablesAppend(data[..i], data[i]);
      if IsPrintable(data[i]) {
        printable := printable + 1;
      }
    }
    assert data[..|data|] == data;
    return 5 * printable > 4 * |data|;
  }

  predicate IsSpace(b: byte) {
    b == 32 || 9 <= b <= 13
  }

  function TrimLeft(s: Bytes): (t: Bytes)
    ensures |t| <= |s| && s[|s| - |t|..] == t
    ensures forall k :: 0 <= k < |s| - |t| ==> IsSpace(s[k])
    ensures t != [] ==> !IsSpace(t[0])
  {
    if s != [] && IsSpace(s[0]) then TrimLeft(s[1..]) else s
  }

  function TrimRight(s: Bytes): (t: Bytes)
    ensures |t| <= |s| && s[..|t|] == t
    ensures forall k :: |t| <= k < |s| ==> IsSpace(s[k])
    ensures t != [] ==> !IsSpace(t[|t| - 1])
  {
    if s != [] && IsSpace(s[|s| - 1]) then TrimRight(s[..|s| - 1]) else s
  }

  /** The payload without leading and trailing ASCII white space. */
  function TrimSpace(s: Bytes): (t: Bytes)
    ensures t != [] ==> !IsSpace(t[0]) && !IsSpace(t[|t| - 1])
    ensures (forall k :: 0 <= k < |s| ==> IsSpace(s[k])) ==> t == []
  {
    TrimRight(TrimLeft(s))
  }

  // ---- Blob identifiers ----

  function HexDigit(n: nat): (c: char)
    requires n < 16
  {
    if n < 10 then (48 + n) as char else (87 + n) as char
  }

  function Hex(payload: Bytes): (h: string)
    ensures |h| == 2 * |payload|
  {
    if payload == [] then ""
    else [HexDigit(payload[0] / 16), HexDigit(payload[0] % 16)] + Hex(payload[1..])
  }

  lemma HexDigitsDiffer(m: nat, n: nat)
    requires m < 16 && n < 16 && HexDigit(m) == HexDigit(n)
    ensures m == n
  {
    assert HexDigit(m) as int == HexDigit(n) as int;
  }

  /** Different payloads name different blobs. */
  lemma {:induction false} HexInjective(a: Bytes, b: Bytes)
    requires Hex(a) == Hex(b)
    ensures a == b
  {
    assert |a| == |b|;
    if a != [] {
      HexDigitsDiffer(a[0] / 16, b[0] / 16) by { assert Hex(a)[0] == Hex(b)[0]; }
      HexDigitsDiffer(a[0] % 16, b[0] % 16) by { assert Hex(a)[1] == Hex(b)[1]; }
      assert Hex(a)[2..] == Hex(a[1..]) && Hex(b)[2..] == Hex(b[1..]);
      HexInjective(a[1..], b[1..]);
      assert a == [a[0]] + a[1..] && b == [b[0]] + b[1..];
    }
  }

  // ---- One field at a time ----

  const BLOB_REF_BYTES: nat := 32

  /** What one field contributes; `Panic` is the slice-bounds panic of a negative payload length. */
  datatype Emission = Nothing | Text(text: Bytes) | Ref(id: string) | Panic

  /** A 32-byte payload is a blob reference; any other payload may be text. */
  function Classify(fieldNum: nat, payload: Bytes): (e: Emission)
    ensures !e.Panic?
  {
    if |payload| == BLOB_REF_BYTES then Ref(Hex(payload))
    else if fieldNum >= 1 && MostlyPrintable(payload) && |TrimSpace(payload)| > 1 then Text(TrimSpace(payload))
    else Nothing
  }

  datatype Step = Step(emission: Emission, size: nat)

  /** The bytes the field at the front of `data` takes (possibly more than there are) and what it contributes. */
  function FieldStep(data: Bytes): (s: Step)
    requires data != []
    ensures s.size > 0
  {
    var tag := Decode(data);
    if tag.length == 0 then Step(Nothing, 1)
    else AfterTag(tag.value / 8, tag.value % 8, tag.length, data[tag.length..])
  }

  function AfterTag(fieldNum: nat, wireType: nat, tagSize: nat, body: Bytes): (s: Step)
    ensures s.size >= tagSize
  {
    match wireType
    case 0 => Step(Nothing, tagSize + Decode(body).length)
    case 1 => Step(Nothing, tagSize + 8)
    case 2 => DelimitedStep(fieldNum, tagSize, Decode(body), body)
    case 5 => Step(Nothing, tagSize + 4)
    case _ => Step(Nothing, tagSize)
  }

  function DelimitedStep(fieldNum: nat, tagSize: nat, prefix: Decoded, body: Bytes): (s: Step)
    requires prefix.length <= |body|
    ensures s.size >= tagSize
  {
    var payload := body[prefix.length..];
    if prefix.length == 0 then Step(Nothing, tagSize + 1)
    else if prefix.value >= TWO_TO_63 then Step(Panic, tagSize)
    else if prefix.value > |payload| then Step(Nothing, tagSize + prefix.length)
    else Step(Classify(fieldNum, payload[..prefix.value]), tagSize + prefix.length + prefix.value)
  }

  datatype ScanResult = Scanned(texts: seq<Bytes>, refs: seq<string>) | Panicked

  function Prepend(e: Emission, r: ScanResult): ScanResult {
    match e
    case Panic => Panicked
    case Nothing => r
    case Text(t) => if r.Panicked? then r else Scanned([t] + r.texts, r.refs)
    case Ref(id) => if r.Panicked? then r else Scanned(r.texts, [id] + r.refs)
  }

  function Drop(data: Bytes, n: nat): Bytes {
    if n >= |data| then [] else data[n..]
  }

  /** What scanning a blob must return: every field's contribution, in field order. */
  function Scan(data: Bytes): ScanResult
    decreases |data|
  {
    if data == [] then Scanned([], [])
    else
      var s := FieldStep(data);
      if s.emission.Panic? then Panicked else Prepend(s.emission, Scan(Drop(data, s.size)))
  }

  function Append(r: ScanResult, texts: seq<Bytes>, refs: seq<string>): ScanResult {
    if r.Panicked? then r else Scanned(texts + r.texts, refs + r.refs)
  }

  /** A length-delimited field after its tag: how far it reaches and what it contributes. */
  method ParseDelimited(fieldNum: nat, body: Bytes) returns (size: nat, emission: Emission)
    ensures forall tagSize: nat ::
      DelimitedStep(fieldNum, tagSize, Decode(body), body) == Step(emission, tagSize + size)
  {
    hide Decode;
    hide Hex;
    hide MostlyPrintable;
    hide TrimSpace;
    var length, n := DecodeVarint(body);
    if n == 0 { return 1, Nothing; }
    var signedLength := if length >= TWO_TO_63 then length - TWO_TO_64 else length;
    if signedLength > |body| - n { return n, Nothing; }
    if signedLength < 0 { return 0, Panic; }
    var payload := body[n..n + signedLength];
    assert payload == body[n..][..signedLength];
    size, emission := n + signedLength, Nothing;
    if |payload| == 32 {
      emission := Ref(Hex(payload));
    } else if fieldNum >= 1 && |payload| > 0 {
      var printable := IsMostlyPrintable(payload);
      if printable {
        var text := TrimSpace(payload);
        if text != [] && |text| > 1 {
          emission := Text(text);
        }
      }
    }
  }

  /** One round of the scan: the tag, then the switch on the wire type. */
  method ParseField(data: Bytes) returns (size: nat, emission: Emission)
    requires data != []
    ensures Step(emission, size) == FieldStep(data)
  {
    var tag, n := DecodeVarint(data);
    if n == 0 { return 1, Nothing; }
    TagParts(tag, 0x07);
    var wireType := BitAnd(tag, 0x07);
    var body := data[n..];
    FieldStepAt(data, tag, n, body);
    match wireType {
      case 0 =>
        var _, m := DecodeVarint(body);
        return n + m, Nothing;
      case 1 => return n + 8, Nothing;
      case 2 =>
        var m, e := ParseDelimited(tag / 8, body);
        return n + m, e;
      case 5 => return n + 4, Nothing;
      case _ => return n, Nothing;
    }
  }

  method ParseProtobufBlob(data: Bytes) returns (texts: seq<Bytes>, blobRefs: seq<string>, panicked: bool)
    ensures panicked <==> Scan(data).Panicked?
    ensures !panicked ==> Scan(data) == Scanned(texts, blobRefs)
  {
    hide Decode;
    hide FieldStep;
    texts, blobRefs, panicked := [], [], false;
    var i := 0;
    while i < |data|
      invariant 0 <= i
      invariant !panicked
      invariant Scan(data) == Append(Scan(Drop(data, i)), texts, blobRefs)
      decreases |data| - i
    {
      var size, emission := ParseField(data[i..]);
      if emission.Panic? {
        ScanStops(data, i, texts, blobRefs);
        return texts, blobRefs, true;
      }
      ScanAdvances(data, i, Step(emission, size), texts, blobRefs);
      i := i + size;
      match emission {
        case Text(text) =>
          AppendAssoc(texts, [text], Scan(Drop(data, i)));
          texts := texts + [text];
        case Ref(id) =>
          AppendAssocRefs(blobRefs, [id], Scan(Drop(data, i)));
          blobRefs := blobRefs + [id];
        case _ =>
      }
    }
  }

  lemma AppendAssoc(texts: seq<Bytes>, more: seq<Bytes>, r: ScanResult)
    ensures r.Scanned? ==> texts + (more + r.texts) == (texts + more) + r.texts
  {
  }

  lemma AppendAssocRefs(refs: seq<string>, more: seq<string>, r: ScanResult)
    ensures r.Scanned? ==> refs + (more + r.refs) == (refs + more) + r.refs
  {
  }

  lemma TagParts(tag: nat, mask: nat)
    requires mask == 0x07
    ensures BitAnd(tag, mask) == tag % 8
  {
    MaskLow(tag, 3);
    EightIsTwoCubed(3);
  }

  lemma EightIsTwoCubed(k: nat)
    requires k == 3
    ensures Pow2(k) == 8
  {
    assert Pow2(k) == 2 * Pow2(k - 1) && Pow2(k - 1) == 2 * Pow2(k - 2) && Pow2(k - 2) == 2 * Pow2(k - 3);
  }

  lemma ScanAdvances(data: Bytes, start: nat, step: Step, texts: seq<Bytes>, refs: seq<string>)
    requires start < |data|
    requires FieldStep(data[start..]) == step && !step.emission.Panic?
    ensures Append(Scan(Drop(data, start)), texts, refs)
         == Append(Prepend(step.emission, Scan(Drop(data, start + step.size))), texts, refs)
  {
    assert Drop(data[start..], step.size) == Drop(data, start + step.size);
  }

  lemma ScanStops(data: Bytes, start: nat, texts: seq<Bytes>, refs: seq<string>)
    requires start < |data| && FieldStep(data[start..]).emission.Panic?
    ensures Append(Scan(Drop(data, start)), texts, refs).Panicked?
  {
  }

  // ---- The encoder, and what scanning its output gives ----

  /** A field of a message; `Marker` covers group tags and the wire types no version of the format uses. */
  datatype Field =
    | VarintField(num: nat, value: uint64)
    | Fixed64(num: nat, bytes: Bytes)
    | Delimited(num: nat, payload: Bytes)
    | Fixed32(num: nat, bytes: Bytes)
    | Marker(num: nat, wire: nat)

  predicate WellFormed(f: Field) {
    && f.num < TWO_TO_64 / 8
    && match f
       case VarintField(_, _) => true
       case Fixed64(_, bytes) => |bytes| == 8
       case Delimited(_, payload) => |payload| < TWO_TO_63
       case Fixed32(_, bytes) => |bytes| == 4
       case Marker(_, wire) => wire in {3, 4, 6, 7}
  }

  function WireType(f: Field): nat {
    match f
    case VarintField(_, _) => 0
    case Fixed64(_, _) => 1
    case Delimited(_, _) => 2
    case Fixed32(_, _) => 5
    case Marker(_, wire) => wire
  }

  function Body(f: Field): Bytes {
    match f
    case VarintField(_, value) => EncodeVarint(value)
    case Fixed64(_, bytes) => bytes
    case Delimited(_, payload) => EncodeVarint(|payload|) + payload
    case Fixed32(_, bytes) => bytes
    case Marker(_, _) => []
  }

  function EncodeField(f: Field): (data: Bytes)
    ensures data != []
  {
    EncodeVarint(f.num * 8 + WireType(f)) + Body(f)
  }

  function EncodeMessage(fields: seq<Field>): Bytes {
    if fields == [] then [] else EncodeField(fields[0]) + EncodeMessage(fields[1..])
  }

  function Contribution(f: Field): Emission {
    if f.Delimited? then Classify(f.num, f.payload) else Nothing
  }

  /** The texts and the references of the fields, each in field order. */
  function TextsOf(fields: seq<Field>): seq<Bytes> {
    if fields == [] then []
    else
      var c := Contribution(fields[0]);
      (if c.Text? then [c.text] else []) + TextsOf(fields[1..])
  }

  function RefsOf(fields: seq<Field>): seq<string> {
    if fields == [] then []
    else
      var c := Contribution(fields[0]);
      (if c.Ref? then [c.id] else []) + RefsOf(fields[1..])
  }

  lemma TagSplits(num: nat, wire: nat)
    requires wire < 8
    ensures (num * 8 + wire) / 8 == num && (num * 8 + wire) % 8 == wire
  {
  }

  lemma FieldStepAt(data: Bytes, tag: uint64, size: nat, body: Bytes)
    requires data != [] && 0 < size <= |data|
    requires Decode(data) == Decoded(tag, size) && data[size..] == body
    ensures FieldStep(data) == AfterTag(tag / 8, tag % 8, size, body)
  {
  }

  lemma EncodedTag(tag: uint64, body: Bytes)
    ensures FieldStep(EncodeVarint(tag) + body) == AfterTag(tag / 8, tag % 8, |EncodeVarint(tag)|, body)
  {
    var code := EncodeVarint(tag);
    VarintRoundTrip(tag, body);
    FieldStepAt(code + body, tag, |code|, body);
  }

  lemma EncodedPayload(num: nat, tagSize: nat, payload: Bytes, rest: Bytes)
    requires |payload| < TWO_TO_63
    ensures AfterTag(num, 2, tagSize, EncodeVarint(|payload|) + payload + rest)
         == Step(Classify(num, payload), tagSize + |EncodeVarint(|payload|)| + |payload|)
  {
    var prefix := EncodeVarint(|payload|);
    var body := prefix + payload + rest;
    assert body == prefix + (payload + rest);
    VarintRoundTrip(|payload|, payload + rest);
    assert body[|prefix|..] == payload + rest;
    assert (payload + rest)[..|payload|] == payload;
  }

  lemma EncodedFieldStep(f: Field, rest: Bytes)
    requires WellFormed(f)
    ensures FieldStep(EncodeField(f) + rest) == Step(Contribution(f), |EncodeField(f)|)
  {
    hide FieldStep;
    hide EncodeVarint;
    hide Decode;
    hide Classify;
    var tag := f.num * 8 + WireType(f);
    var code := EncodeVarint(tag);
    TagSplits(f.num, WireType(f));
    assert EncodeField(f) + rest == code + (Body(f) + rest);
    EncodedTag(tag, Body(f) + rest);
    match f
    case VarintField(_, value) => VarintRoundTrip(value, rest);
    case Delimited(num, payload) => EncodedPayload(num, |code|, payload, rest);
    case _ =>
  }

  lemma ScanFront(front: Bytes, rest: Bytes, e: Emission)
    requires front != [] && FieldStep(front + rest) == Step(e, |front|) && !e.Panic?
    ensures Scan(front + rest) == Prepend(e, Scan(rest))
  {
    assert Drop(front + rest, |front|) == rest;
  }

  lemma ScanEncodedField(f: Field, rest: Bytes)
    requires WellFormed(f)
    ensures Scan(EncodeField(f) + rest) == Prepend(Contribution(f), Scan(rest))
  {
    EncodedFieldStep(f, rest);
    ScanFront(EncodeField(f), rest, Contribution(f));
  }

  /** Scanning an encoded message with more bytes behind it gives the contributions of its fields, and then whatever
      scanning the rest gives. */
  lemma {:induction false} ScanAfterMessage(fields: seq<Field>, rest: Bytes)
    requires forall f :: f in fields ==> WellFormed(f)
    ensures Scan(EncodeMessage(fields) + rest) == Append(Scan(rest), TextsOf(fields), RefsOf(fields))
  {
    hide EncodeField;
    hide Decode;
    hide FieldStep;
    hide Classify;
    if fields == [] {
      assert EncodeMessage(fields) + rest == rest;
      AppendNothing(Scan(rest));
    } else {
      var f, more := fields[0], fields[1..];
      assert EncodeMessage(fields) + rest == EncodeField(f) + (EncodeMessage(more) + rest);
      ScanEncodedField(f, EncodeMessage(more) + rest);
      ScanAfterMessage(more, rest);
      PrependThenAppend(Contribution(f), Scan(rest), TextsOf(more), RefsOf(more));
    }
  }

  lemma AppendNothing(r: ScanResult)
    ensures Append(r, [], []) == r
  {
    if r.Scanned? { assert [] + r.texts == r.texts && [] + r.refs == r.refs; }
  }

  lemma PrependThenAppend(e: Emission, r: ScanResult, texts: seq<Bytes>, refs: seq<string>)
    requires !e.Panic?
    ensures Prepend(e, Append(r, texts, refs))
         == Append(r, (if e.Text? then [e.text] else []) + texts, (if e.Ref? then [e.id] else []) + refs)
  {
    assert [] + texts == texts && [] + refs == refs;
    if r.Scanned? && e.Text? { assert [e.text] + (texts + r.texts) == [e.text] + texts + r.texts; }
    if r.Scanned? && e.Ref? { assert [e.id] + (refs + r.refs) == [e.id] + refs + r.refs; }
  }

  /** Scanning any encoded message returns exactly the trimmed printable payloads and the hex of the
      32-byte payloads, in field order. */
  lemma ScanEncodedMessage(fields: seq<Field>)
    requires forall f :: f in fields ==> WellFormed(f)
    ensures Scan(EncodeMessage(fields)) == Scanned(TextsOf(fields), RefsOf(fields))
  {
    hide EncodeMessage;
    ScanAfterMessage(fields, []);
    assert EncodeMessage(fields) + [] == EncodeMessage(fields);
    assert TextsOf(fields) + [] == TextsOf(fields) && RefsOf(fields) + [] == RefsOf(fields);
  }

  // ---- When the scan panics ----

  /** A length-delimited field stands at the front whose length prefix decodes to 2^63 or more. */
  predicate HugePrefixAt(data: Bytes) {
    var tag := Decode(data);
    && tag.length > 0 && tag.value % 8 == 2
    && var prefix := Decode(data[tag.length..]); prefix.length > 0 && prefix.value >= TWO_TO_63
  }

  /** The scan, going field by field, starts one at this position. */
  predicate Boundary(data: Bytes, i: nat)
    requires i < |data|
  {
    i == 0 || (FieldStep(data).size <= i && Boundary(data[FieldStep(data).size..], i - FieldStep(data).size))
  }

  ghost predicate HasHugePrefix(data: Bytes) {
    exists i :: 0 <= i < |data| && Boundary(data, i) && HugePrefixAt(data[i..])
  }

  lemma StepPanicsIff(data: Bytes)
    requires data != []
    ensures FieldStep(data).emission.Panic? <==> HugePrefixAt(data)
  {
  }

  /** The scan panics exactly when one of the fields it comes to has such a prefix. */
  lemma {:induction false} PanicsIffHugePrefix(data: Bytes)
    ensures Scan(data).Panicked? <==> HasHugePrefix(data)
    decreases |data|
  {
    hide FieldStep;
    hide HugePrefixAt;
    if data != [] {
      StepPanicsIff(data);
      var size := FieldStep(data).size;
      var rest := Drop(data, size);
      PanicsIffHugePrefix(rest);
      assert data[0..] == data;
      if HugePrefixAt(data) {
        assert Boundary(data, 0);
      } else {
        if HasHugePrefix(rest) {
          var i :| 0 <= i < |rest| && Boundary(rest, i) && HugePrefixAt(rest[i..]);
          assert rest[i..] == data[size + i..] && Boundary(data, size + i);
        }
        if HasHugePrefix(data) {
          var i :| 0 <= i < |data| && Boundary(data, i) && HugePrefixAt(data[i..]);
          assert rest[i - size..] == data[i..] && Boundary(rest, i - size);
        }
      }
    }
  }

  /** A panic needs a one-byte tag and a ten-byte length prefix, so no shorter blob can cause one. */
  lemma {:induction false} ShortBlobsNeverPanic(data: Bytes)
    requires |data| <= 10
    ensures Scan(data).Scanned?
    decreases |data|
  {
    if data != [] {
      var tag := Decode(data);
      if tag.length > 0 {
        ShortVarintsAreSmall(data[tag.length..]);
      }
      ShortBlobsNeverPanic(Drop(data, FieldStep(data).size));
    }
  }

  /** Every length-delimited field whose prefix says 2^63 or more does panic, whatever fields come before it and
      whatever bytes after. */
  lemma HugePrefixPanics(fields: seq<Field>, num: nat, tag: uint64, huge: uint64, rest: Bytes)
    requires forall f :: f in fields ==> WellFormed(f)
    requires tag == num * 8 + 2 && huge >= TWO_TO_63
    ensures Scan(EncodeMessage(fields) + (EncodeVarint(tag) + EncodeVarint(huge) + rest)).Panicked?
  {
    hide FieldStep;
    hide EncodeMessage;
    hide EncodeVarint;
    hide Decode;
    var body := EncodeVarint(huge) + rest;
    assert EncodeVarint(tag) + EncodeVarint(huge) + rest == EncodeVarint(tag) + body;
    EncodedTag(tag, body);
    TagSplits(num, 2);
    VarintRoundTrip(huge, rest);
    ScanAfterMessage(fields, EncodeVarint(tag) + body);
  }

  /** So the bound is sharp: such a field with a small number takes eleven bytes. */
  lemma HugePrefixSize(tag: nat, huge: uint64)
    requires tag < 128 && huge >= TWO_TO_63
    ensures |EncodeVarint(tag) + EncodeVarint(huge)| == 11
  {
    var prefix := EncodeVarint(huge);
    VarintRoundTrip(huge, []);
    assert prefix + [] == prefix;
    if |prefix| < 10 { ShortVarintsAreSmall(prefix); }
  }
}
