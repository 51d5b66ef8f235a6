/** The two kinds of protocol record and their store keys.

    The source writes each record as the JSON text of an object literal and
    uses that text as the store key; the value slot only carries a
    timestamp. Here the JSON text is spelled out for the shapes the
    protocol produces (fields in the order of the source's literals, ids
    free of double quotes so that no escaping is needed); a message's data
    is the JSON text of the payload and comes last. */
module Records {
  import opened Options
  import opened Strings

  /** `TAG.MESSAGE`: marks message records. */
  const MESSAGE_TAG: string := "b6297eba-31e4-11e3-8cf6-ce3f5508acd9"

  /** `TAG.MESSAGE_LISTENER`: marks listener records. */
  const MESSAGE_LISTENER_TAG: string := "8cc00beb-0943-41e8-9bbf-a74f91e3679e"

  // The fixed pieces of JSON text around the fields.
  const LISTENER_OPEN: string := "{\"tag\":\""
  const MESSAGE_OPEN: string := "{\"messageId\":\""
  const TAG_KEY: string := "\",\"tag\":\""
  const TARGET_KEY: string := "\",\"targetId\":\""
  const DATA_KEY: string := "\",\"data\":"
  const LISTENER_CLOSE: string := "\"}"
  const MESSAGE_CLOSE: string := "}"

  datatype Record =
    | ListenerRecord(targetId: string)
    | MessageRecord(messageId: string, targetId: string, data: string)

  /** An id that JSON writes without escapes (guids are hex digits and
      dashes): no double quote, no backslash, no control character. */
  predicate IsId(s: string) {
    forall i :: 0 <= i < |s| ==> s[i] != '"' && s[i] != '\\' && s[i] >= ' '
  }

  /** The JSON text of a payload as `JSON.stringify` writes it: never empty,
      and control characters only ever escaped. */
  predicate IsData(s: string) {
    |s| > 0 && forall i :: 0 <= i < |s| ==> s[i] >= ' '
  }

  predicate WellFormed(r: Record) {
    IsId(r.targetId) && (r.MessageRecord? ==> IsId(r.messageId) && IsData(r.data))
  }

  /** `JSON.stringify` of the record's object literal:
      `{"tag":"<listener tag>","targetId":"<t>"}` or
      `{"messageId":"<m>","tag":"<message tag>","targetId":"<t>","data":<d>}`. */
  function Encode(r: Record): (key: string)
    ensures |key| > 0 && key[0] == '{' && key[|key| - 1] == '}'
  {
    match r
    case ListenerRecord(t) =>
      LISTENER_OPEN + (MESSAGE_LISTENER_TAG + (TARGET_KEY + (t + LISTENER_CLOSE)))
    case MessageRecord(m, t, d) =>
      MESSAGE_OPEN + (m + (TAG_KEY + (MESSAGE_TAG + (TARGET_KEY + (t + (DATA_KEY + (d + MESSAGE_CLOSE)))))))
  }

  /** What follows `literal` at the front of `s`, if `s` starts with it. */
  function Expect(s: string, literal: string): (r: Option<string>)
    ensures r.Some? ==> s == literal + r.value
  {
    if |literal| <= |s| && s[..|literal|] == literal then Some(s[|literal|..]) else None
  }

  lemma ExpectLiteral(literal: string, rest: string)
    ensures Expect(literal + rest, literal) == Some(rest)
  {
    assert (literal + rest)[..|literal|] == literal;
    assert (literal + rest)[|literal|..] == rest;
  }

  /** The quote-free field at the front of `s`, and what follows it. */
  function Field(s: string): (string, string) {
    var n := IndexOfChar(s, '"');
    (s[..n], s[n..])
  }

  lemma FieldBeforeQuote(f: string, rest: string)
    requires IsId(f) && |rest| > 0 && rest[0] == '"'
    ensures Field(f + rest) == (f, rest)
  {
    IndexOfCharAfter(f, '"', rest);
    assert (f + rest)[..|f|] == f && (f + rest)[|f|..] == rest;
  }

  function DecodeListener(key: string): Option<Record> {
    match Expect(key, LISTENER_OPEN)
    case None => None
    case Some(s1) =>
      match Expect(s1, MESSAGE_LISTENER_TAG)
      case None => None
      case Some(s2) =>
        match Expect(s2, TARGET_KEY)
        case None => None
        case Some(s3) =>
          if |s3| >= |LISTENER_CLOSE| && s3[|s3| - |LISTENER_CLOSE|..] == LISTENER_CLOSE
            && IsId(s3[..|s3| - |LISTENER_CLOSE|])
          then Some(ListenerRecord(s3[..|s3| - |LISTENER_CLOSE|]))
          else None
  }

  function DecodeMessage(key: string): Option<Record> {
    match Expect(key, MESSAGE_OPEN)
    case None => None
    case Some(s1) => DecodeMessageId(s1)
  }

  /** The rest of a message key after `{"messageId":"`. */
  function DecodeMessageId(s1: string): Option<Record> {
    var (m, s2) := Field(s1);
    match Expect(s2, TAG_KEY)
    case None => None
    case Some(s3) =>
      match Expect(s3, MESSAGE_TAG)
      case None => None
      case Some(s4) =>
        match Expect(s4, TARGET_KEY)
        case None => None
        case Some(s5) => DecodeTargetId(m, s5)
  }

  /** The rest of a message key after `"targetId":"`; ids with escapes and
      data that is empty or holds a raw control character are not JSON
      that the source's writer produces, and `JSON.parse` fails on most of
      them, so none of them decodes. */
  function DecodeTargetId(m: string, s5: string): Option<Record> {
    var (t, s6) := Field(s5);
    match Expect(s6, DATA_KEY)
    case None => None
    case Some(s7) =>
      if |s7| > 0 && s7[|s7| - 1] == '}' && IsId(m) && IsId(t) && IsData(s7[..|s7| - 1])
      then Some(MessageRecord(m, t, s7[..|s7| - 1]))
      else None
  }

  /** `JSON.parse` of a key, as far as the protocol's own records go;
      `None` stands for a key that is not one of them. */
  function Decode(key: string): (r: Option<Record>)
    ensures r.Some? ==> WellFormed(r.value)
  {
    var l := DecodeListener(key);
    if l.Some? then l else DecodeMessage(key)
  }

  lemma DecodeListenerEncode(t: string)
    requires IsId(t)
    ensures DecodeListener(Encode(ListenerRecord(t))) == Some(ListenerRecord(t))
  {
    ExpectLiteral(LISTENER_OPEN, MESSAGE_LISTENER_TAG + (TARGET_KEY + (t + LISTENER_CLOSE)));
    ExpectLiteral(MESSAGE_LISTENER_TAG, TARGET_KEY + (t + LISTENER_CLOSE));
    ExpectLiteral(TARGET_KEY, t + LISTENER_CLOSE);
    var s3 := t + LISTENER_CLOSE;
    assert s3[|s3| - |LISTENER_CLOSE|..] == LISTENER_CLOSE;
    assert s3[..|s3| - |LISTENER_CLOSE|] == t;
  }

  lemma DecodeMessageEncode(m: string, t: string, d: string)
    requires IsId(m) && IsId(t) && IsData(d)
    ensures DecodeMessage(Encode(MessageRecord(m, t, d))) == Some(MessageRecord(m, t, d))
  {
    var s7 := d + MESSAGE_CLOSE;
    var s6 := DATA_KEY + s7;
    var s5 := t + s6;
    FieldBeforeQuote(t, s6);
    ExpectLiteral(DATA_KEY, s7);
    assert s7[..|s7| - 1] == d;
    assert DecodeTargetId(m, s5) == Some(MessageRecord(m, t, d));
    var s4 := TARGET_KEY + s5;
    var s3 := MESSAGE_TAG + s4;
    var s2 := TAG_KEY + s3;
    var s1 := m + s2;
    FieldBeforeQuote(m, s2);
    ExpectLiteral(TAG_KEY, s3);
    ExpectLiteral(MESSAGE_TAG, s4);
    ExpectLiteral(TARGET_KEY, s5);
    assert DecodeMessageId(s1) == Some(MessageRecord(m, t, d));
    ExpectLiteral(MESSAGE_OPEN, s1);
  }

  /** A message key never reads as a listener key: the first field differs. */
  lemma DecodeListenerOfMessage(m: string, t: string, d: string)
    ensures DecodeListener(Encode(MessageRecord(m, t, d))) == None
  {
    var k := Encode(MessageRecord(m, t, d));
    assert k[2] == 'm';
    assert LISTENER_OPEN[2] == 't';
  }

  /** The message id is the first field of a message key, so message keys
      with different ids differ. */
  lemma MessageIdOfKey(m: string, t: string, d: string)
    requires IsId(m)
    ensures Field(Encode(MessageRecord(m, t, d))[|MESSAGE_OPEN|..]).0 == m
  {
    var rest := TAG_KEY + (MESSAGE_TAG + (TARGET_KEY + (t + (DATA_KEY + (d + MESSAGE_CLOSE)))));
    assert Encode(MessageRecord(m, t, d))[|MESSAGE_OPEN|..] == m + rest;
    FieldBeforeQuote(m, rest);
  }

  /** Decoding inverts encoding for every well-formed record. */
  lemma DecodeEncode(r: Record)
    requires WellFormed(r)
    ensures Decode(Encode(r)) == Some(r)
  {
    match r
    case ListenerRecord(t) => DecodeListenerEncode(t);
    case MessageRecord(m, t, d) =>
      DecodeListenerOfMessage(m, t, d);
      DecodeMessageEncode(m, t, d);
  }

  lemma EncodeDecodeListener(key: string)
    requires DecodeListener(key).Some?
    ensures WellFormed(DecodeListener(key).value) && Encode(DecodeListener(key).value) == key
  {
    var s1 := Expect(key, LISTENER_OPEN).value;
    var s2 := Expect(s1, MESSAGE_LISTENER_TAG).value;
    var s3 := Expect(s2, TARGET_KEY).value;
    var t := s3[..|s3| - |LISTENER_CLOSE|];
    assert DecodeListener(key) == Some(ListenerRecord(t));
    assert s3 == t + LISTENER_CLOSE;
  }

  lemma EncodeDecodeTargetId(m: string, s5: string)
    requires DecodeTargetId(m, s5).Some?
    ensures var r := DecodeTargetId(m, s5).value;
      r.MessageRecord? && r.messageId == m && IsId(r.targetId)
      && s5 == r.targetId + (DATA_KEY + (r.data + MESSAGE_CLOSE))
  {
    var t := Field(s5).0;
    var s6 := Field(s5).1;
    assert s5 == t + s6;
    var s7 := Expect(s6, DATA_KEY).value;
    var d := s7[..|s7| - 1];
    assert DecodeTargetId(m, s5) == Some(MessageRecord(m, t, d));
    assert s7 == d + MESSAGE_CLOSE;
  }

  lemma EncodeDecodeMessageId(s1: string)
    requires DecodeMessageId(s1).Some?
    ensures var r := DecodeMessageId(s1).value;
      r.MessageRecord? && WellFormed(r)
      && s1 == r.messageId + (TAG_KEY + (MESSAGE_TAG + (TARGET_KEY + (r.targetId + (DATA_KEY + (r.data + MESSAGE_CLOSE))))))
  {
    var m := Field(s1).0;
    var s2 := Field(s1).1;
    assert s1 == m + s2;
    var s3 := Expect(s2, TAG_KEY).value;
    var s4 := Expect(s3, MESSAGE_TAG).value;
    var s5 := Expect(s4, TARGET_KEY).value;
    assert DecodeMessageId(s1) == DecodeTargetId(m, s5);
    EncodeDecodeTargetId(m, s5);
  }

  lemma EncodeDecodeMessage(key: string)
    requires DecodeMessage(key).Some?
    ensures WellFormed(DecodeMessage(key).value) && Encode(DecodeMessage(key).value) == key
  {
    var s1 := Expect(key, MESSAGE_OPEN).value;
    EncodeDecodeMessageId(s1);
  }

  /** Whatever decodes is well formed and is exactly the encoding of what it
      decodes to: no two keys decode to the same record. */
  lemma EncodeDecode(key: string)
    requires Decode(key).Some?
    ensures WellFormed(Decode(key).value) && Encode(Decode(key).value) == key
  {
    if DecodeListener(key).Some? {
      EncodeDecodeListener(key);
    } else {
      EncodeDecodeMessage(key);
    }
  }

  /** The key of a record contains its target id and its kind's tag, and a
      message's key its message id. */
  lemma EncodeContains(r: Record)
    ensures Contains(Encode(r), r.targetId)
    ensures r.MessageRecord? ==> Contains(Encode(r), r.messageId)
    ensures r.ListenerRecord? ==> Contains(Encode(r), MESSAGE_LISTENER_TAG)
    ensures r.MessageRecord? ==> Contains(Encode(r), MESSAGE_TAG)
  {
    match r
    case ListenerRecord(t) =>
      ContainsPrefix(t, LISTENER_CLOSE);
      ContainsAfter(TARGET_KEY, t + LISTENER_CLOSE, t);
      ContainsAfter(MESSAGE_LISTENER_TAG, TARGET_KEY + (t + LISTENER_CLOSE), t);
      ContainsAfter(LISTENER_OPEN, MESSAGE_LISTENER_TAG + (TARGET_KEY + (t + LISTENER_CLOSE)), t);
      ContainsPrefix(MESSAGE_LISTENER_TAG, TARGET_KEY + (t + LISTENER_CLOSE));
      ContainsAfter(LISTENER_OPEN, MESSAGE_LISTENER_TAG + (TARGET_KEY + (t + LISTENER_CLOSE)), MESSAGE_LISTENER_TAG);
    case MessageRecord(m, t, d) =>
      var s5 := t + (DATA_KEY + (d + MESSAGE_CLOSE));
      var s3 := MESSAGE_TAG + (TARGET_KEY + s5);
      ContainsPrefix(t, DATA_KEY + (d + MESSAGE_CLOSE));
      ContainsAfter(TARGET_KEY, s5, t);
      ContainsAfter(MESSAGE_TAG, TARGET_KEY + s5, t);
      ContainsAfter(TAG_KEY, s3, t);
      ContainsAfter(m, TAG_KEY + s3, t);
      ContainsAfter(MESSAGE_OPEN, m + (TAG_KEY + s3), t);
      ContainsPrefix(MESSAGE_TAG, TARGET_KEY + s5);
      ContainsAfter(TAG_KEY, s3, MESSAGE_TAG);
      ContainsAfter(m, TAG_KEY + s3, MESSAGE_TAG);
      ContainsAfter(MESSAGE_OPEN, m + (TAG_KEY + s3), MESSAGE_TAG);
      ContainsPrefix(m, TAG_KEY + s3);
      ContainsAfter(MESSAGE_OPEN, m + (TAG_KEY + s3), m);
  }
}
