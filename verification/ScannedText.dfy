/** What the scanner makes of one field, byte by byte and without its own helpers: which payloads are text and which
    part of them, which are references and how they are spelled, and how it goes on after a malformed field. */
module ScannedText {
  import opened Varint
  import opened ProtobufScan

  // ---- Text ----

  /** A horizontal tab, line feed, vertical tab, form feed, carriage return or space. */
  predicate White(b: byte) {
    b == 9 || b == 10 || b == 11 || b == 12 || b == 13 || b == 32
  }

  /** Trimming keeps one part of the payload, drops white space only, and all of it at both ends. */
  lemma TrimIsMiddle(s: Bytes) returns (i: nat, j: nat)
    ensures i <= j <= |s| && TrimSpace(s) == s[i..j]
    ensures forall k :: 0 <= k < i || j <= k < |s| ==> White(s[k])
    ensures i < j ==> !White(s[i]) && !White(s[j - 1])
  {
    hide TrimLeft;
    hide TrimRight;
    var left := TrimLeft(s);
    var right := TrimRight(left);
    i := |s| - |left|;
    j := i + |right|;
    assert left == s[i..] && right == left[..j - i];
    forall k | 0 <= k < i || j <= k < |s| ensures White(s[k]) {
      if j <= k { assert s[k] == left[k - i]; }
    }
  }

  /** White space around something that neither begins nor ends with it is exactly what goes. */
  lemma TrimAround(before: Bytes, p: Bytes, after: Bytes)
    requires forall b :: b in before || b in after ==> White(b)
    requires p != [] && !White(p[0]) && !White(p[|p| - 1])
    ensures TrimSpace(before + p + after) == p
  {
    hide White;
    hide TrimSpace;
    var s := before + p + after;
    var i, j := TrimIsMiddle(s);
    var m, n := |before|, |before| + |p|;
    assert s[m] == p[0] && s[n - 1] == p[|p| - 1] && i <= m && n <= j;
    forall k | 0 <= k < m || n <= k < |s| ensures White(s[k]) {
      assert s[k] == if k < m then before[k] else after[k - n];
    }
    assert s[m..n] == p;
  }

  /** The control characters other than tab, line feed and carriage return. */
  predicate Control(b: byte) {
    b == 127 || (b < 32 && b !in {9, 10, 13})
  }

  function Controls(data: Bytes): set<nat> {
    set k: nat | k < |data| && Control(data[k])
  }

  lemma {:induction false} PrintablesAreTheRest(data: Bytes)
    ensures |Printables(data)| + |Controls(data)| == |data|
  {
    hide Printables;
    if data == [] {
      NoPrintables();
      assert Controls(data) == {};
    } else {
      var n := |data| - 1;
      var init := data[..n];
      assert data == init + [data[n]];
      PrintablesAreTheRest(init);
      PrintablesAppend(init, data[n]);
      assert Controls(data) == Controls(init) + (if Control(data[n]) then {n} else {});
    }
  }

  lemma NoPrintables()
    ensures Printables([]) == []
  {
  }

  /** Text has fewer than one control character in five bytes. */
  lemma MostlyPrintableIff(data: Bytes)
    ensures MostlyPrintable(data) <==> data != [] && 5 * |Controls(data)| < |data|
  {
    PrintablesAreTheRest(data);
  }

  // ---- References ----

  const DIGITS: string := "0123456789abcdef"

  /** A reference is spelled in lower-case hexadecimal, the high half of each byte first. */
  lemma {:induction false} HexSpells(payload: Bytes)
    ensures |Hex(payload)| == 2 * |payload|
    ensures forall k :: 0 <= k < |payload| ==>
      Hex(payload)[2 * k] == DIGITS[payload[k] / 16] && Hex(payload)[2 * k + 1] == DIGITS[payload[k] % 16]
  {
    hide Hex;
    HexStep(payload);
    if payload != [] {
      var rest := payload[1..];
      HexSpells(rest);
      DigitIs(payload[0] / 16);
      DigitIs(payload[0] % 16);
      forall k | 0 < k < |payload|
        ensures Hex(payload)[2 * k] == DIGITS[payload[k] / 16] && Hex(payload)[2 * k + 1] == DIGITS[payload[k] % 16]
      {
        var j := k - 1;
        assert payload[k] == rest[j] && 2 * k == 2 * j + 2;
        assert Hex(rest)[2 * j] == DIGITS[rest[j] / 16] && Hex(rest)[2 * j + 1] == DIGITS[rest[j] % 16];
      }
    }
  }

  lemma HexStep(payload: Bytes)
    ensures payload == [] ==> Hex(payload) == []
    ensures payload != [] ==>
      Hex(payload) == [HexDigit(payload[0] / 16), HexDigit(payload[0] % 16)] + Hex(payload[1..])
  {
  }

  lemma DigitIs(n: nat)
    requires n < 16
    ensures HexDigit(n) == DIGITS[n]
  {
  }

  // ---- One field of a message ----

  /** A message of one length-delimited field. A payload of 32 bytes is a reference and nothing else. Any other is text
      if the field number is not zero, fewer than one byte in five is a control character, and two bytes or more are
      left without the white space at its ends; and then those are the text. */
  lemma DelimitedFieldScans(num: nat, payload: Bytes) returns (i: nat, j: nat)
    requires num < TWO_TO_64 / 8 && |payload| < TWO_TO_63
    ensures i <= j <= |payload| && (i < j ==> !White(payload[i]) && !White(payload[j - 1]))
    ensures forall k :: 0 <= k < i || j <= k < |payload| ==> White(payload[k])
    ensures var r := Scan(EncodeMessage([Delimited(num, payload)]));
      if |payload| == 32 then r == Scanned([], [Hex(payload)])
      else if num >= 1 && 5 * |Controls(payload)| < |payload| && j - i >= 2 then r == Scanned([payload[i..j]], [])
      else r == Scanned([], [])
  {
    hide EncodeMessage;
    hide Scan;
    hide MostlyPrintable;
    hide TextsOf;
    hide RefsOf;
    hide TrimSpace;
    hide White;
    hide Controls;
    i, j := TrimIsMiddle(payload);
    ScanEncodedMessage([Delimited(num, payload)]);
    MostlyPrintableIff(payload);
    OneField(Delimited(num, payload));
  }

  lemma OneField(f: Field)
    ensures TextsOf([f]) == if Contribution(f).Text? then [Contribution(f).text] else []
    ensures RefsOf([f]) == if Contribution(f).Ref? then [Contribution(f).id] else []
  {
    assert [f][1..] == [];
  }

  /** A payload that some white space surrounds, tabs and line ends included, and otherwise of visible characters and
      inner spaces, is read as the text between. */
  ghost predicate Readable(before: Bytes, text: Bytes, after: Bytes) {
    && (forall b :: b in before || b in after ==> b in {9, 10, 13, 32})
    && |text| >= 2 && (forall b :: b in text ==> 32 <= b <= 126) && text[0] != 32 && text[|text| - 1] != 32
    && |before + text + after| != 32 && |before + text + after| < 0x8000_0000_0000_0000
  }

  lemma ReadableIsText(num: nat, before: Bytes, text: Bytes, after: Bytes)
    requires 1 <= num && Readable(before, text, after)
    ensures Contribution(Delimited(num, before + text + after)) == Text(text)
  {
    hide TrimSpace;
    hide MostlyPrintable;
    var payload := before + text + after;
    assert text[0] in text && text[|text| - 1] in text;
    TrimAround(before, text, after);
    MostlyPrintableIff(payload);
    forall k | 0 <= k < |payload| ensures !Control(payload[k]) {
      assert payload[k] in before || payload[k] in text || payload[k] in after;
    }
    assert Controls(payload) == {};
  }

  /** The text of one readable field. */
  lemma ReadableFieldScans(num: nat, before: Bytes, text: Bytes, after: Bytes)
    requires 1 <= num < TWO_TO_64 / 8 && Readable(before, text, after)
    ensures Scan(EncodeMessage([Delimited(num, before + text + after)])) == Scanned([text], [])
  {
    hide EncodeMessage;
    hide Scan;
    hide Contribution;
    var f := Delimited(num, before + text + after);
    ScanEncodedMessage([f]);
    ReadableIsText(num, before, text, after);
    OneField(f);
  }

  // ---- Fields without a payload ----

  /** A number, eight bytes, four bytes and the markers of groups and of no version of the format: the scan goes on right
      behind them, whatever comes there. */
  lemma SkippedFields(num: nat, value: uint64, eight: Bytes, four: Bytes, wire: nat, rest: Bytes)
    requires num < TWO_TO_64 / 8 && |eight| == 8 && |four| == 4 && wire in {3, 4, 6, 7}
    ensures Scan(EncodeVarint(num * 8 + 0) + (EncodeVarint(value) + rest)) == Scan(rest)
    ensures Scan(EncodeVarint(num * 8 + 1) + (eight + rest)) == Scan(rest)
    ensures Scan(EncodeVarint(num * 8 + 5) + (four + rest)) == Scan(rest)
    ensures Scan(EncodeVarint(num * 8 + wire) + rest) == Scan(rest)
  {
    hide Decode;
    hide EncodeVarint;
    hide Scan;
    VarintRoundTrip(value, rest);
    SkippedField(num, 0, EncodeVarint(value), rest);
    SkippedField(num, 1, eight, rest);
    SkippedField(num, 5, four, rest);
    SkippedField(num, wire, [], rest);
    assert [] + rest == rest;
  }

  lemma SkippedField(num: nat, wire: nat, skipped: Bytes, rest: Bytes)
    requires num < TWO_TO_64 / 8 && wire < 8
    requires forall size: nat :: AfterTag(num, wire, size, skipped + rest) == Step(Nothing, size + |skipped|)
    ensures Scan(EncodeVarint(num * 8 + wire) + (skipped + rest)) == Scan(rest)
  {
    hide FieldStep;
    hide EncodeVarint;
    hide AfterTag;
    hide Scan;
    var data, size := TagThen(num, wire, skipped + rest);
    assert AfterTag(num, wire, size, skipped + rest) == Step(Nothing, size + |skipped|);
    ScanAfter(data, Step(Nothing, size + |skipped|));
    assert (skipped + rest)[|skipped|..] == rest;
    assert data[size + |skipped|..] == rest;
  }

  // ---- Malformed fields ----

  lemma ScanAfter(data: Bytes, step: Step)
    requires data != [] && FieldStep(data) == step && step.emission.Nothing?
    ensures Scan(data) == Scan(if step.size >= |data| then [] else data[step.size..])
  {
  }

  /** Ten bytes without an end are no tag, and neither are fewer at the end of the blob: one byte is skipped. */
  lemma BadTagSkipsAByte(data: Bytes)
    requires data != [] && forall k :: 0 <= k < |data| && k < 10 ==> data[k] >= 128
    ensures Scan(data) == Scan(data[1..])
  {
    assert Decode(data).length == 0;
    ScanAfter(data, Step(Nothing, 1));
  }

  /** A well-formed tag in front of anything. */
  lemma TagThen(num: nat, wire: nat, body: Bytes) returns (data: Bytes, size: nat)
    requires num < TWO_TO_64 / 8 && wire < 8
    ensures data == EncodeVarint(num * 8 + wire) + body && size == |EncodeVarint(num * 8 + wire)|
    ensures data != [] && data[size..] == body && FieldStep(data) == AfterTag(num, wire, size, body)
  {
    hide FieldStep;
    hide EncodeVarint;
    hide Decode;
    var tag := num * 8 + wire;
    data, size := EncodeVarint(tag) + body, |EncodeVarint(tag)|;
    EncodedTag(tag, body);
    TagSplits(num, wire);
  }

  lemma Undecodable(body: Bytes)
    requires forall k :: 0 <= k < |body| && k < 10 ==> body[k] >= 128
    ensures Decode(body).length == 0
  {
  }

  /** After a tag, a varint or a length that does not end: the bytes of the varint are scanned as fields, those of the
      length from the second on. */
  lemma UnendedNumberIsRescanned(num: nat, body: Bytes)
    requires num < TWO_TO_64 / 8 && forall k :: 0 <= k < |body| && k < 10 ==> body[k] >= 128
    ensures Scan(EncodeVarint(num * 8 + 0) + body) == Scan(body)
    ensures Scan(EncodeVarint(num * 8 + 2) + body) == Scan(if body == [] then [] else body[1..])
  {
    hide FieldStep;
    hide EncodeVarint;
    hide Decode;
    hide Scan;
    Undecodable(body);
    var data, size := TagThen(num, 0, body);
    ScanAfter(data, Step(Nothing, size));
    assert data[size..] == body;
    data, size := TagThen(num, 2, body);
    ScanAfter(data, Step(Nothing, size + 1));
    if body != [] { assert data[size + 1..] == body[1..]; }
  }

  /** A payload cut short is scanned as fields from behind its length on. */
  lemma ShortPayloadIsRescanned(num: nat, length: nat, rest: Bytes)
    requires num < TWO_TO_64 / 8 && |rest| < length < TWO_TO_63
    ensures Scan(EncodeVarint(num * 8 + 2) + (EncodeVarint(length) + rest)) == Scan(rest)
  {
    hide FieldStep;
    hide EncodeVarint;
    hide Decode;
    var prefix := EncodeVarint(length);
    var data, size := TagThen(num, 2, prefix + rest);
    VarintRoundTrip(length, rest);
    assert (prefix + rest)[|prefix|..] == rest;
    ScanAfter(data, Step(Nothing, size + |prefix|));
    assert data[size + |prefix|..] == rest;
  }

  /** A fixed-width value cut short ends the scan. */
  lemma ShortFixedEndsScan(num: nat, body: Bytes)
    requires num < TWO_TO_64 / 8
    ensures |body| < 8 ==> Scan(EncodeVarint(num * 8 + 1) + body) == Scanned([], [])
    ensures |body| < 4 ==> Scan(EncodeVarint(num * 8 + 5) + body) == Scanned([], [])
  {
    hide FieldStep;
    hide EncodeVarint;
    var data, size := TagThen(num, 1, body);
    ScanAfter(data, Step(Nothing, size + 8));
    data, size := TagThen(num, 5, body);
    ScanAfter(data, Step(Nothing, size + 4));
  }
}
