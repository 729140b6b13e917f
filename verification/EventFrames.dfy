/** Server-sent event frames written into a preallocated byte buffer. */
module EventFrames {
  import opened Characters
  import opened Options
  import opened Utf8

  const CRLF: seq<Byte> := [CR, LF]
  const CRLF_LENGTH := 2

  // "retry: ", ": ", "id: ", "event: " and "data: "
  const RETRY_FIELD: seq<Byte> := [114, 101, 116, 114, 121, 58, 32]
  const COMMENT_FIELD: seq<Byte> := [58, 32]
  const ID_FIELD: seq<Byte> := [105, 100, 58, 32]
  const EVENT_FIELD: seq<Byte> := [101, 118, 101, 110, 116, 58, 32]
  const DATA_FIELD: seq<Byte> := [100, 97, 116, 97, 58, 32]

  datatype SseEvent = SseEvent(id: Option<Text>, event: Text, data: Text)

  predicate HasId(e: SseEvent) {
    e.id.Some? && exists i :: 0 <= i < |e.id.value| && !IsWhiteSpace(e.id.value[i])
  }

  function Decimal(n: nat): (digits: Text)
    ensures digits != [] && forall d :: d in digits ==> 48 <= d <= 57
  {
    if n < 10 then [48 + n] else Decimal(n / 10) + [48 + n % 10]
  }

  // ----- what the frames are -----

  function FieldBytes(field: seq<Byte>, data: Text): seq<Byte> {
    field + Encode(data) + CRLF
  }

  function IdBytes(e: SseEvent): seq<Byte> {
    if HasId(e) then FieldBytes(ID_FIELD, e.id.value) else []
  }

  function EventBytes(e: SseEvent): seq<Byte> {
    IdBytes(e) + FieldBytes(EVENT_FIELD, e.event) + FieldBytes(DATA_FIELD, e.data) + CRLF
  }

  function FieldMaxBytesCount(field: seq<Byte>, data: Text): nat {
    |field| + MaxByteCount(|data|) + CRLF_LENGTH
  }

  function EventMaxBytesCount(e: SseEvent): nat {
    CRLF_LENGTH + (if HasId(e) then FieldMaxBytesCount(ID_FIELD, e.id.value) else 0)
    + FieldMaxBytesCount(EVENT_FIELD, e.event) + FieldMaxBytesCount(DATA_FIELD, e.data)
  }

  /** The bytes written are followed by zeros up to the size reserved for them. */
  ghost predicate HoldsFrame(bytes: array<Byte>, count: nat, frame: seq<Byte>, size: nat)
    reads bytes
  {
    && bytes.Length == size && count == |frame| <= size
    && bytes[..count] == frame
    && forall i :: count <= i < size ==> bytes[i] == 0
  }

  // ----- how they are written -----

  method Append(bytes: array<Byte>, at: nat, more: seq<Byte>) returns (count: nat)
    requires at + |more| <= bytes.Length
    modifies bytes
    ensures count == at + |more| && bytes[..count] == old(bytes[..at]) + more
    ensures forall i :: count <= i < bytes.Length ==> bytes[i] == old(bytes[i])
  {
    count := at;
    for i := 0 to |more|
      invariant count == at + i && bytes[..count] == old(bytes[..at]) + more[..i]
      invariant forall j :: count <= j < bytes.Length ==> bytes[j] == old(bytes[j])
    {
      bytes[count] := more[i];
      count := count + 1;
    }
  }

  /** A field needs no more room than the caller reserved: the proof that nothing is written past the
      buffer is that every caller below meets this precondition. */
  method GetFieldBytes(field: seq<Byte>, data: Text, bytes: array<Byte>, at: nat) returns (count: nat)
    requires at + |FieldBytes(field, data)| <= bytes.Length
    modifies bytes
    ensures count == at + |FieldBytes(field, data)|
    ensures bytes[..count] == old(bytes[..at]) + FieldBytes(field, data)
    ensures forall i :: count <= i < bytes.Length ==> bytes[i] == old(bytes[i])
  {
    ghost var before := bytes[..at];
    count := Append(bytes, at, field);
    count := Append(bytes, count, Encode(data));
    count := Append(bytes, count, CRLF);
    assert bytes[..count] == before + field + Encode(data) + CRLF;
    assert before + field + Encode(data) + CRLF == before + FieldBytes(field, data);
  }

  lemma FieldFits(field: seq<Byte>, data: Text)
    ensures |FieldBytes(field, data)| <= FieldMaxBytesCount(field, data)
  {
    EncodeFits(data);
  }

  method GetSingleFieldBytes(field: seq<Byte>, data: Text) returns (bytes: array<Byte>, count: nat)
    ensures fresh(bytes)
    ensures HoldsFrame(bytes, count, FieldBytes(field, data) + CRLF, FieldMaxBytesCount(field, data) + CRLF_LENGTH)
  {
    FieldFits(field, data);
    bytes := new Byte[FieldMaxBytesCount(field, data) + CRLF_LENGTH](_ => 0);
    count := GetFieldBytes(field, data, bytes, 0);
    count := Append(bytes, count, CRLF);
  }

  method GetReconnectIntervalBytes(interval: nat) returns (bytes: array<Byte>, count: nat)
    ensures fresh(bytes)
    ensures HoldsFrame(bytes, count, FieldBytes(RETRY_FIELD, Decimal(interval)) + CRLF,
                       FieldMaxBytesCount(RETRY_FIELD, Decimal(interval)) + CRLF_LENGTH)
  {
    bytes, count := GetSingleFieldBytes(RETRY_FIELD, Decimal(interval));
  }

  method GetCommentBytes(comment: Text) returns (bytes: array<Byte>, count: nat)
    ensures fresh(bytes)
    ensures HoldsFrame(bytes, count, FieldBytes(COMMENT_FIELD, comment) + CRLF,
                       FieldMaxBytesCount(COMMENT_FIELD, comment) + CRLF_LENGTH)
  {
    bytes, count := GetSingleFieldBytes(COMMENT_FIELD, comment);
  }

  method GetTextBytes(text: Text) returns (bytes: array<Byte>, count: nat)
    ensures fresh(bytes)
    ensures HoldsFrame(bytes, count, FieldBytes(DATA_FIELD, text) + CRLF, FieldMaxBytesCount(DATA_FIELD, text) + CRLF_LENGTH)
  {
    bytes, count := GetSingleFieldBytes(DATA_FIELD, text);
  }

  lemma EventFits(e: SseEvent)
    ensures |EventBytes(e)| <= EventMaxBytesCount(e)
  {
    if HasId(e) { FieldFits(ID_FIELD, e.id.value); }
    FieldFits(EVENT_FIELD, e.event);
    FieldFits(DATA_FIELD, e.data);
  }

  method GetEventBytes(e: SseEvent) returns (bytes: array<Byte>, count: nat)
    ensures fresh(bytes)
    ensures HoldsFrame(bytes, count, EventBytes(e), EventMaxBytesCount(e))
  {
    bytes := new Byte[EventMaxBytesCount(e)](_ => 0);
    EventFits(e);
    ghost var idPart := IdBytes(e);
    ghost var eventPart, dataPart := FieldBytes(EVENT_FIELD, e.event), FieldBytes(DATA_FIELD, e.data);
    count := 0;
    if HasId(e) {
      count := GetFieldBytes(ID_FIELD, e.id.value, bytes, count);
    }
    assert bytes[..count] == idPart;
    count := GetFieldBytes(EVENT_FIELD, e.event, bytes, count);
    assert bytes[..count] == idPart + eventPart;
    count := GetFieldBytes(DATA_FIELD, e.data, bytes, count);
    assert bytes[..count] == idPart + eventPart + dataPart;
    count := Append(bytes, count, CRLF);
  }
}
