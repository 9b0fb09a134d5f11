/**
 * The App's own comments: the marker that publishes what a comment is, and the reading of one out of a comment body
 * anyone may have written.
 */
module Marker {
  import opened Wrappers
  import opened JsonText
  import Words = Text

  const MANAGED_MARKER_PREFIX := "<!-- hiero-automation:"
  const MANAGED_MARKER_SUFFIX := " -->"
  const MANAGED_MARKER_SCHEMA_VERSION := 2
  const MANAGED_PAYLOAD_BYTE_LIMIT := 2048
  const MANAGED_SUBJECT_DIGEST_LENGTH := 16
  const MANAGED_COMMENT_KINDS := ["summary", "warning", "notice"]

  /** Whose comment it is, on which item, of which kind and topic. */
  datatype Identity = Identity(capability: string, itemKind: string, number: nat, kind: string, topic: string)

  /** What a warning's marker carries of the act it is for. */
  datatype WarningRecord = WarningRecord(
    effectId: string,
    actionClass: string,
    capability: string,
    causeObservedAt: string,
    cause: string,
    item: string,
    change: string,
    gracePeriodHours: Decimal,
    cancelledBy: string,
    reversesWith: string)

  datatype Payload = Payload(capability: string, kind: string, subject: string, record: Option<WarningRecord>)

  // ----- Minting -----

  /** The text a subject is the digest of: a JSON array of the identity's five parts. */
  function IdentityText(identity: Identity): string {
    Printed(Array(
      Item(Text(identity.capability),
      Item(Text(identity.itemKind),
      Item(Text(Digits(identity.number)),
      Item(Text(identity.kind),
      Item(Text(identity.topic), NoItems)))))))
  }

  function PayloadOf(sha256: string -> string, identity: Identity, record: Option<WarningRecord>): Payload {
    var digest := sha256(IdentityText(identity));
    Payload(identity.capability, identity.kind,
            if |digest| <= MANAGED_SUBJECT_DIGEST_LENGTH then digest else digest[..MANAGED_SUBJECT_DIGEST_LENGTH],
            record)
  }

  /** An object's fields, in the order given. */
  function FieldsOf(pairs: seq<(string, Json)>): Fields {
    if pairs == [] then NoFields else Field(pairs[0].0, pairs[0].1, FieldsOf(pairs[1..]))
  }

  function RecordPairs(record: WarningRecord): seq<(string, Json)> {
    [("effectId", Text(record.effectId)),
     ("actionClass", Text(record.actionClass)),
     ("capability", Text(record.capability)),
     ("causeObservedAt", Text(record.causeObservedAt)),
     ("cause", Text(record.cause)),
     ("item", Text(record.item)),
     ("change", Text(record.change)),
     ("gracePeriodHours", Number(record.gracePeriodHours)),
     ("cancelledBy", Text(record.cancelledBy)),
     ("reversesWith", Text(record.reversesWith))]
  }

  function RecordJson(record: WarningRecord): Json {
    Object(FieldsOf(RecordPairs(record)))
  }

  function PayloadPairs(payload: Payload): seq<(string, Json)> {
    [("schemaVersion", Number(Whole(MANAGED_MARKER_SCHEMA_VERSION))),
     ("capability", Text(payload.capability)),
     ("kind", Text(payload.kind)),
     ("subject", Text(payload.subject))]
    + if payload.record.None? then [] else [("record", RecordJson(payload.record.value))]
  }

  function PayloadJson(payload: Payload): Json {
    Object(FieldsOf(PayloadPairs(payload)))
  }

  function EncodedPayload(payload: Payload): string {
    Printed(PayloadJson(payload))
  }

  function MarkerOf(payload: Payload): string {
    MANAGED_MARKER_PREFIX + EncodedPayload(payload) + MANAGED_MARKER_SUFFIX
  }

  /** The comment as posted: the marker first, then the capability's words. */
  function ManagedBody(marker: string, body: string): string {
    marker + "\n\n" + body
  }

  // ----- Reading untrusted text -----

  datatype Rejection = NoMarker | Oversized | Malformed | PriorVersion | FutureVersion

  datatype Reading = Recognized(payload: Payload) | Unrecognized(why: Rejection)

  /** The first index at which `part` stands in `s`, from `from` on. */
  function IndexFrom(s: string, part: string, from: nat): (index: Option<nat>)
    requires from <= |s|
    ensures index.Some? ==> from <= index.value && index.value + |part| <= |s|
    ensures index.Some? ==> Words.StartsWith(s[index.value..], part)
    ensures index.Some? ==> forall i :: from <= i < index.value ==> !Words.StartsWith(s[i..], part)
    ensures index.None? ==> forall i :: from <= i <= |s| ==> !Words.StartsWith(s[i..], part)
    decreases |s| - from
  {
    if Words.StartsWith(s[from..], part) then Some(from)
    else if from == |s| then None
    else IndexFrom(s, part, from + 1)
  }

  function CharBytes(c: char): nat {
    if c as int < 0x80 then 1 else if c as int < 0x800 then 2 else if c as int < 0x1_0000 then 3 else 4
  }

  /** How many bytes the text takes in UTF-8. */
  function Utf8Length(s: string): nat {
    if s == "" then 0 else CharBytes(s[0]) + Utf8Length(s[1..])
  }

  /** A field's value; of two fields with one name the later counts. */
  function Lookup(fields: Fields, name: string): Option<Json> {
    match fields
    case NoFields => None
    case Field(n, value, rest) =>
      var later := Lookup(rest, name);
      if later.Some? then later else if n == name then Some(value) else None
  }

  /** A field that holds text, and not the empty text. */
  function Worded(fields: Fields, name: string): Option<string> {
    match Lookup(fields, name)
    case Some(Text(text)) => if text == "" then None else Some(text)
    case _ => None
  }

  function RecordOf(value: Json): Option<WarningRecord> {
    if !value.Object? then None
    else
      var f := value.fields;
      var effectId, actionClass, capability := Worded(f, "effectId"), Worded(f, "actionClass"), Worded(f, "capability");
      var observedAt, cause, item := Worded(f, "causeObservedAt"), Worded(f, "cause"), Worded(f, "item");
      var change, cancelledBy, reversesWith := Worded(f, "change"), Worded(f, "cancelledBy"), Worded(f, "reversesWith");
      var hours := Lookup(f, "gracePeriodHours");
      if effectId.None? || actionClass.None? || capability.None? || observedAt.None? || cause.None? || item.None?
         || change.None? || cancelledBy.None? || reversesWith.None? then None
      else if hours.None? || !hours.value.Number? || !Positive(hours.value.decimal) then None
      else Some(WarningRecord(effectId.value, actionClass.value, capability.value, observedAt.value, cause.value,
                              item.value, change.value, hours.value.decimal, cancelledBy.value, reversesWith.value))
  }

  predicate IsLowerHex(c: char) {
    '0' <= c <= '9' || 'a' <= c <= 'f'
  }

  predicate IsSubject(subject: string) {
    |subject| == MANAGED_SUBJECT_DIGEST_LENGTH && forall i :: 0 <= i < |subject| ==> IsLowerHex(subject[i])
  }

  function ReadPayload(fields: Fields): Reading {
    match Lookup(fields, "schemaVersion")
    case Some(Number(Whole(version))) =>
      if version < 1 then Unrecognized(Malformed)
      else if version < MANAGED_MARKER_SCHEMA_VERSION then Unrecognized(PriorVersion)
      else if version > MANAGED_MARKER_SCHEMA_VERSION then Unrecognized(FutureVersion)
      else
        var capability, kind := Worded(fields, "capability"), Worded(fields, "kind");
        var subject, record := Worded(fields, "subject"), Lookup(fields, "record");
        if capability.None? || kind.None? || kind.value !in MANAGED_COMMENT_KINDS then Unrecognized(Malformed)
        else if subject.None? || !IsSubject(subject.value) then Unrecognized(Malformed)
        else if record.None? then Recognized(Payload(capability.value, kind.value, subject.value, None))
        else
          var authorised := if kind.value == "warning" then RecordOf(record.value) else None;
          if authorised.None? then Unrecognized(Malformed)
          else Recognized(Payload(capability.value, kind.value, subject.value, authorised))
    case _ => Unrecognized(Malformed)
  }

  /** What the reader makes of the text between the marker's two ends. */
  function ReadEncoded(encoded: string): Reading {
    if Utf8Length(encoded) > MANAGED_PAYLOAD_BYTE_LIMIT then Unrecognized(Oversized)
    else
      var json := Parse(encoded);
      if json.None? || !json.value.Object? then Unrecognized(Malformed) else ReadPayload(json.value.fields)
  }

  function ParseManagedMarker(body: string): Reading {
    if !Words.StartsWith(body, MANAGED_MARKER_PREFIX) then Unrecognized(NoMarker)
    else
      var end := IndexFrom(body, MANAGED_MARKER_SUFFIX, 0);
      if end.None? then Unrecognized(NoMarker)
      else
        // An end inside the prefix would slice to nothing; the prefix holds no closing bytes.
        var encoded := if end.value <= |MANAGED_MARKER_PREFIX| then "" else body[|MANAGED_MARKER_PREFIX|..end.value];
        ReadEncoded(encoded)
  }

  // ----- The round trip -----

  predicate WellFormedRecord(r: WarningRecord) {
    && r.effectId != "" && r.actionClass != "" && r.capability != "" && r.causeObservedAt != "" && r.cause != ""
    && r.item != "" && r.change != "" && r.cancelledBy != "" && r.reversesWith != "" && Positive(r.gracePeriodHours)
  }

  /** A payload the reader can recognise: a record only on a warning, and well formed. */
  predicate Publishable(payload: Payload) {
    && payload.capability != "" && payload.kind in MANAGED_COMMENT_KINDS && IsSubject(payload.subject)
    && (payload.record.Some? ==> payload.kind == "warning" && WellFormedRecord(payload.record.value))
  }

  predicate ClosesAt(text: string, i: nat) {
    i <= |text| && Words.StartsWith(text[i..], MANAGED_MARKER_SUFFIX)
  }

  predicate HoldsClosingBytes(text: string) {
    exists i: nat :: i <= |text| && ClosesAt(text, i)
  }

  /** The payload's text can stand between the marker's two ends. */
  predicate Encloses(payload: Payload) {
    && Utf8Length(EncodedPayload(payload)) <= MANAGED_PAYLOAD_BYTE_LIMIT
    && !HoldsClosingBytes(EncodedPayload(payload))
  }

  predicate DistinctNames(pairs: seq<(string, Json)>) {
    forall i, j :: 0 <= i < j < |pairs| ==> pairs[i].0 != pairs[j].0
  }

  lemma {:induction false} LookupFinds(pairs: seq<(string, Json)>, i: nat)
    requires DistinctNames(pairs) && i < |pairs|
    ensures Lookup(FieldsOf(pairs), pairs[i].0) == Some(pairs[i].1)
  {
    if i > 0 {
      LookupFinds(pairs[1..], i - 1);
    } else {
      LookupMisses(pairs[1..], pairs[0].0);
    }
  }

  lemma {:induction false} LookupMisses(pairs: seq<(string, Json)>, name: string)
    requires forall i :: 0 <= i < |pairs| ==> pairs[i].0 != name
    ensures Lookup(FieldsOf(pairs), name).None?
  {
    if pairs != [] {
      LookupMisses(pairs[1..], name);
    }
  }

  lemma RecordReadsBack(record: WarningRecord)
    ensures RecordOf(RecordJson(record)) == if WellFormedRecord(record) then Some(record) else None
  {
    var pairs := RecordPairs(record);
    assert DistinctNames(pairs);
    forall i: nat | i < |pairs|
      ensures Lookup(FieldsOf(pairs), pairs[i].0) == Some(pairs[i].1)
    {
      LookupFinds(pairs, i);
    }
    var f := FieldsOf(pairs);
    assert pairs[0].0 == "effectId" && pairs[1].0 == "actionClass" && pairs[2].0 == "capability"
           && pairs[3].0 == "causeObservedAt" && pairs[4].0 == "cause" && pairs[5].0 == "item"
           && pairs[6].0 == "change" && pairs[7].0 == "gracePeriodHours" && pairs[8].0 == "cancelledBy"
           && pairs[9].0 == "reversesWith";
  }

  lemma PayloadReadsBack(payload: Payload)
    ensures ReadPayload(PayloadJson(payload).fields)
              == if Publishable(payload) then Recognized(payload) else Unrecognized(Malformed)
  {
    var pairs := PayloadPairs(payload);
    assert DistinctNames(pairs);
    LookupFinds(pairs, 0);
    LookupFinds(pairs, 1);
    LookupFinds(pairs, 2);
    LookupFinds(pairs, 3);
    if payload.record.Some? {
      LookupFinds(pairs, 4);
      RecordReadsBack(payload.record.value);
    } else {
      LookupMisses(pairs, "record");
    }
  }

  /** No closing bytes begin inside the prefix, or across the end of an object. */
  lemma NoEarlyClose(encoded: string, after: string, i: nat)
    requires encoded != "" && encoded[|encoded| - 1] == '}'
    requires i < |MANAGED_MARKER_PREFIX| + |encoded|
    ensures var body := MANAGED_MARKER_PREFIX + encoded + MANAGED_MARKER_SUFFIX + after;
            var p := |MANAGED_MARKER_PREFIX|;
            ClosesAt(body, i) <==> i >= p && ClosesAt(encoded, i - p)
  {
    var p := |MANAGED_MARKER_PREFIX|;
    var body := MANAGED_MARKER_PREFIX + encoded + MANAGED_MARKER_SUFFIX + after;
    var here := body[i..];
    assert |here| >= 4 && |MANAGED_MARKER_SUFFIX| == 4;
    assert forall k :: 0 <= k < 4 ==> here[..4][k] == body[i + k];
    if i < p {
      assert body[i] == MANAGED_MARKER_PREFIX[i] && (i == 4 ==> body[i + 1] == 'h');
      assert here[..4][0] != ' ' || here[..4][1] != '-';
    } else {
      var last := p + |encoded| - 1;
      assert body[last] == '}';
      if last < i + 4 {
        assert here[..4][last - i] == '}' && MANAGED_MARKER_SUFFIX[last - i] != '}';
      } else {
        assert encoded[i - p..][..4] == here[..4];
      }
    }
  }

  lemma LastOfAnObject(json: Json)
    requires json.Object?
    ensures var text := Printed(json); text != "" && text[|text| - 1] == '}'
  {
  }

  /** Where the reader finds the end: after the payload, or inside it when it holds the closing bytes. */
  lemma WhereItEnds(encoded: string, after: string)
    requires encoded != "" && encoded[|encoded| - 1] == '}'
    ensures var p := |MANAGED_MARKER_PREFIX|;
            var end := IndexFrom(MANAGED_MARKER_PREFIX + encoded + MANAGED_MARKER_SUFFIX + after, MANAGED_MARKER_SUFFIX, 0);
            && end.Some? && p <= end.value <= p + |encoded|
            && (end.value < p + |encoded| <==> HoldsClosingBytes(encoded))
  {
    var p := |MANAGED_MARKER_PREFIX|;
    var body := MANAGED_MARKER_PREFIX + encoded + MANAGED_MARKER_SUFFIX + after;
    var end := IndexFrom(body, MANAGED_MARKER_SUFFIX, 0);
    assert body[p + |encoded|..] == MANAGED_MARKER_SUFFIX + after;
    assert ClosesAt(body, p + |encoded|);
    if end.value < p + |encoded| {
      NoEarlyClose(encoded, after, end.value);
      assert ClosesAt(encoded, end.value - p);
    }
    if HoldsClosingBytes(encoded) {
      var i: nat :| ClosesAt(encoded, i);
      assert ClosesAt(encoded, i);
      NoEarlyClose(encoded, after, p + i);
    }
  }

  lemma WholePayloadReads(payload: Payload)
    ensures var fits := Utf8Length(EncodedPayload(payload)) <= MANAGED_PAYLOAD_BYTE_LIMIT;
            ReadEncoded(EncodedPayload(payload)) == Recognized(payload) <==> Publishable(payload) && fits
  {
    PayloadReadsBack(payload);
    ParseInvertsPrinting(PayloadJson(payload));
  }

  lemma CutPayloadIsRefused(payload: Payload, cut: nat)
    requires cut < |EncodedPayload(payload)|
    ensures ReadEncoded(EncodedPayload(payload)[..cut]).Unrecognized?
  {
    NoPrefixOfAnObjectParses(PayloadJson(payload), EncodedPayload(payload)[..cut]);
  }

  /** The reader is handed the whole payload, or, when it holds the closing bytes, a part of it. */
  lemma WhatIsRead(encoded: string, after: string) returns (cut: nat)
    requires encoded != "" && encoded[|encoded| - 1] == '}'
    ensures cut <= |encoded| && (cut < |encoded| <==> HoldsClosingBytes(encoded))
    ensures ParseManagedMarker(MANAGED_MARKER_PREFIX + encoded + MANAGED_MARKER_SUFFIX + after) == ReadEncoded(encoded[..cut])
  {
    var p := |MANAGED_MARKER_PREFIX|;
    var body := MANAGED_MARKER_PREFIX + encoded + MANAGED_MARKER_SUFFIX + after;
    WhereItEnds(encoded, after);
    var end := IndexFrom(body, MANAGED_MARKER_SUFFIX, 0);
    cut := end.value - p;
    assert body[p..end.value] == encoded[..cut];
    assert body[..p] == MANAGED_MARKER_PREFIX;
  }

  lemma BodyIsItsParts(payload: Payload, words: string)
    ensures ManagedBody(MarkerOf(payload), words)
              == MANAGED_MARKER_PREFIX + EncodedPayload(payload) + MANAGED_MARKER_SUFFIX + ("\n\n" + words)
  {
  }

  /**
   * The marker's round trip, exactly: a posted comment reads back as the payload it publishes if and only if the
   * payload is publishable, fits the byte limit, and does not itself hold the closing bytes.
   */
  lemma MarkerRoundTrips(payload: Payload, words: string)
    ensures var read := ParseManagedMarker(ManagedBody(MarkerOf(payload), words));
            read == Recognized(payload) <==> Publishable(payload) && Encloses(payload)
  {
    var encoded, after := EncodedPayload(payload), "\n\n" + words;
    LastOfAnObject(PayloadJson(payload));
    var cut := WhatIsRead(encoded, after);
    BodyIsItsParts(payload, words);
    if cut < |encoded| {
      CutPayloadIsRefused(payload, cut);
    } else {
      assert encoded[..cut] == encoded;
      WholePayloadReads(payload);
    }
  }

  /** Where UTF-8 stops fitting a character into this many bytes (RFC 3629, section 3). */
  function FirstPast(bytes: nat): int
    requires 1 <= bytes <= 4
  {
    if bytes == 1 then 0x80 else if bytes == 2 then 0x800 else if bytes == 3 then 0x1_0000 else 0x11_0000
  }

  /** A character takes the fewest bytes it fits in. */
  lemma BytesAreTheFewest(c: char)
    ensures 1 <= CharBytes(c) <= 4 && c as int < FirstPast(CharBytes(c))
    ensures forall bytes: nat :: 1 <= bytes < CharBytes(c) ==> c as int >= FirstPast(bytes)
  {
  }

  /** What a payload publishes: its identity's name and kind, the front of its digest, and the record given. */
  lemma APayloadNamesItsIdentity(sha256: string -> string, identity: Identity, record: Option<WarningRecord>)
    ensures var payload, digest := PayloadOf(sha256, identity, record), sha256(IdentityText(identity));
            && payload.capability == identity.capability && payload.kind == identity.kind && payload.record == record
            && |payload.subject| <= MANAGED_SUBJECT_DIGEST_LENGTH && Words.StartsWith(digest, payload.subject)
            && (|digest| >= MANAGED_SUBJECT_DIGEST_LENGTH ==> |payload.subject| == MANAGED_SUBJECT_DIGEST_LENGTH)
  {
  }

  lemma ReadRecordsAreWellFormed(json: Json)
    ensures RecordOf(json).Some? ==> WellFormedRecord(RecordOf(json).value)
  {
  }

  /**
   * Whatever anybody wrote, what is recognised in it could have been published: it stands first, names a capability,
   * one of the three kinds and sixteen lower-case hexadecimal digits, and carries a record only as a warning.
   */
  lemma WhatIsRecognised(body: string)
    requires ParseManagedMarker(body).Recognized?
    ensures var payload := ParseManagedMarker(body).payload;
            && Words.StartsWith(body, MANAGED_MARKER_PREFIX) && Publishable(payload)
            && payload.kind in ["summary", "warning", "notice"] && |payload.subject| == 16
            && forall i :: 0 <= i < 16 ==> '0' <= payload.subject[i] <= '9' || 'a' <= payload.subject[i] <= 'f'
  {
    forall json ensures RecordOf(json).Some? ==> WellFormedRecord(RecordOf(json).value) {
      ReadRecordsAreWellFormed(json);
    }
  }

  // ----- Recognising one's own comment -----

  datatype Mismatch = NotAppAuthored | NoManagedMarker | OtherSubject

  /** The first test of the three that a comment fails against a payload, if it fails one. */
  function MismatchOf(body: string, authoredByApp: bool, mine: Payload): Option<Mismatch> {
    if !authoredByApp then Some(NotAppAuthored)
    else
      match ParseManagedMarker(body)
      case Unrecognized(_) => Some(NoManagedMarker)
      case Recognized(found) =>
        if found.capability == mine.capability && found.kind == mine.kind && found.subject == mine.subject
        then None else Some(OtherSubject)
  }

  lemma IdentityTextIsInjective(a: Identity, b: Identity)
    ensures IdentityText(a) == IdentityText(b) <==> a == b
  {
    var textA, textB := Array(Item(Text(a.capability), Item(Text(a.itemKind), Item(Text(Digits(a.number)),
                          Item(Text(a.kind), Item(Text(a.topic), NoItems)))))),
                        Array(Item(Text(b.capability), Item(Text(b.itemKind), Item(Text(Digits(b.number)),
                          Item(Text(b.kind), Item(Text(b.topic), NoItems))))));
    PrintingIsInjective(textA, textB);
    DigitsAreInjective(a.number, b.number);
  }

  lemma DigitsAreInjective(m: nat, n: nat)
    ensures Digits(m) == Digits(n) <==> m == n
  {
    PrintingIsInjective(Number(Whole(m)), Number(Whole(n)));
  }

  /**
   * Under a digest that does not collide on the two identities, the App's comment for one stands under the other if
   * and only if they are one identity, whatever words follow and whatever record the marker carries.
   */
  lemma OneCommentOneIdentity(sha256: string -> string, mine: Identity, theirs: Identity, record: Option<WarningRecord>,
                              words: string)
    requires IdentityText(mine) != IdentityText(theirs) ==>
               PayloadOf(sha256, mine, None).subject != PayloadOf(sha256, theirs, None).subject
    requires var payload := PayloadOf(sha256, theirs, record); Publishable(payload) && Encloses(payload)
    ensures var body := ManagedBody(MarkerOf(PayloadOf(sha256, theirs, record)), words);
            && (MismatchOf(body, true, PayloadOf(sha256, mine, None)).None? <==> mine == theirs)
            && MismatchOf(body, false, PayloadOf(sha256, mine, None)) == Some(NotAppAuthored)
  {
    MarkerRoundTrips(PayloadOf(sha256, theirs, record), words);
    IdentityTextIsInjective(mine, theirs);
  }
}
