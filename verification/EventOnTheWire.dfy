/** The frames byte by byte, the sizes reserved for them, and examples from the standards they follow. */
module EventOnTheWire {
  import opened Characters
  import opened Options
  import opened Utf8
  import opened EventFrames
  import opened EventStream
  import opened EventRoundTrip
  import opened EventExactness

  /** There is something in the text besides white space. */
  predicate NotBlank(text: Text) { exists i :: 0 <= i < |text| && !IsWhiteSpace(text[i]) }

  /** "id: ..." unless the id is missing or blank, then "event: ...", "data: ..." and an empty line, each ended by CR LF;
      and the size of the buffer. */
  lemma EventInBytes(e: SseEvent)
    ensures EventBytes(e)
      == (if e.id.Some? && NotBlank(e.id.value) then [105, 100, 58, 32] + Encode(e.id.value) + [13, 10] else [])
         + ([101, 118, 101, 110, 116, 58, 32] + Encode(e.event) + [13, 10])
         + ([100, 97, 116, 97, 58, 32] + Encode(e.data) + [13, 10]) + [13, 10]
    ensures EventMaxBytesCount(e)
      == (if e.id.Some? && NotBlank(e.id.value) then 4 + 3 * (|e.id.value| + 1) + 2 else 0)
         + 7 + 3 * (|e.event| + 1) + 2 + 6 + 3 * (|e.data| + 1) + 2 + 2
  {
  }

  /** The other three frames: "data: ...", ": ..." and "retry: ...", and an empty line. */
  lemma FramesInBytes(text: Text, n: nat)
    ensures Written(TextFrame(text)) == [100, 97, 116, 97, 58, 32] + Encode(text) + [13, 10] + [13, 10]
    ensures Written(CommentFrame(text)) == [58, 32] + Encode(text) + [13, 10] + [13, 10]
    ensures Written(RetryFrame(n)) == [114, 101, 116, 114, 121, 58, 32] + Encode(Decimal(n)) + [13, 10] + [13, 10]
    ensures FieldMaxBytesCount(DATA_FIELD, text) + CRLF_LENGTH == 6 + 3 * (|text| + 1) + 4
    ensures FieldMaxBytesCount(COMMENT_FIELD, text) + CRLF_LENGTH == 2 + 3 * (|text| + 1) + 4
    ensures FieldMaxBytesCount(RETRY_FIELD, Decimal(n)) + CRLF_LENGTH == 7 + 3 * (|Decimal(n)| + 1) + 4
  {
  }

  /** The interval is written without leading zeros. */
  lemma {:induction false} NoLeadingZero(n: nat)
    ensures n > 0 ==> Decimal(n)[0] != 48
    ensures n == 0 ==> Decimal(n) == [48]
  {
    if n >= 10 { NoLeadingZero(n / 10); }
  }

  /** An id with something in it comes back with its event, if it is one line without a null character. */
  lemma IdComesBack(e: SseEvent)
    requires e.id.Some? && NotBlank(e.id.value) && 0 !in Scalars(e.id.value)
    requires SingleLineText(e.id.value) && SingleLineText(e.event) && SingleLineText(e.data) && e.event != []
    ensures var r := ReadStream(EventBytes(e));
      r.Some? && r.value.events == [Event(Scalars(e.event), Scalars(e.data), Scalars(e.id.value))]
  {
    var frames := [EventFrame(e)];
    assert frames[1..] == [];
    StreamRoundTrip(frames);
    assert WrittenAll(frames) == Written(frames[0]) + [];
    assert Written(frames[0]) + [] == EventBytes(e);
    assert MeaningAll(START, frames).events == Meaning(START, frames[0]).events + [];
  }

  // ----- section 7 of RFC 3629 -----

  /** "A", "not identical to" and "Alpha"; the three characters of "hangugeo"; and "stump of tree". */
  lemma ScalarExamples()
    ensures EncodeScalar(0x41) == [0x41] && EncodeScalar(0x2262) == [0xE2, 0x89, 0xA2] && EncodeScalar(0x391) == [0xCE, 0x91]
    ensures EncodeScalar(0xD55C) == [0xED, 0x95, 0x9C] && EncodeScalar(0xAD6D) == [0xEA, 0xB5, 0xAD]
    ensures EncodeScalar(0xC5B4) == [0xEC, 0x96, 0xB4] && EncodeScalar(0x233B4) == [0xF0, 0xA3, 0x8E, 0xB4]
  {
  }

  /** A character outside the basic plane, in two units; and a unit that stands alone. */
  lemma StumpOfATree()
    ensures Encode([0xD84C, 0xDFB4]) == [0xF0, 0xA3, 0x8E, 0xB4]
  {
    assert [0xD84C, 0xDFB4][2..] == [];
    assert Scalars([0xD84C, 0xDFB4]) == [0x233B4];
    EncodeOne(0x233B4);
  }

  lemma AloneIsReplaced(u: Unit)
    requires 0xD800 <= u < 0xE000
    ensures Encode([u]) == [0xEF, 0xBF, 0xBD]
  {
    assert [u][1..] == [];
    assert Scalars([u]) == [0xFFFD];
    EncodeOne(0xFFFD);
  }

  lemma EncodeOne(c: Scalar)
    ensures EncodeAll([c]) == EncodeScalar(c)
  {
    assert [c][1..] == [] && EncodeScalar(c) + [] == EncodeScalar(c);
  }

  // ----- section 9.2.6 of the WHATWG HTML Living Standard -----

  lemma ReadLf(r: Reader, line: seq<Scalar>, rest: seq<Scalar>)
    requires SingleLine(line)
    ensures Read(r, line + ([LF] + rest)).events
      == ProcessLine(r, line).events + Read(ProcessLine(r, line).reader, rest).events
  {
    ReadEndedLine(r, line, [LF] + rest);
    assert ([LF] + rest)[1..] == rest;
  }

  /** "data: ...", a line feed, and what follows. */
  function DataText(value: seq<Scalar>, rest: seq<Scalar>): seq<Scalar> {
    [100, 97, 116, 97, 58, 32] + value + ([LF] + rest)
  }

  lemma DataLine(r: Reader, value: seq<Scalar>, rest: seq<Scalar>, next: Reader)
    requires SingleLine(value) && next == r.(data := r.data + value + [LF])
    ensures Read(r, DataText(value, rest)).events == Read(next, rest).events
  {
    var line := [100, 97, 116, 97, 58, 32] + value;
    assert line == Line(DATA_NAME, value);
    NamesAreNames();
    FieldLine(r, DATA_NAME, value);
    ReadLf(r, line, rest);
    assert [] + Read(next, rest).events == Read(next, rest).events;
  }

  lemma BlankLine(r: Reader, rest: seq<Scalar>)
    ensures Read(r, [LF] + rest).events == Dispatch(r).events + Read(Dispatch(r).reader, rest).events
  {
    assert [LF] + rest == [] + ([LF] + rest);
    ReadLf(r, [], rest);
  }

  lemma BlankAfterData(r: Reader, data: seq<Scalar>)
    requires r.data == data + [LF] && r.eventType == []
    ensures Read(r, [LF] + []).events == [Event(MESSAGE, data, r.lastId)]
  {
    BlankLine(r, []);
    assert (data + [LF])[..|data|] == data;
  }

  /** The stock ticker: three data lines are one event with two line feeds in its data. */
  lemma StockTicker(yhoo: seq<Scalar>, two: seq<Scalar>, ten: seq<Scalar>)
    requires SingleLine(yhoo) && SingleLine(two) && SingleLine(ten)
    ensures Read(START, DataText(yhoo, DataText(two, DataText(ten, [LF] + [])))).events
      == [Event(MESSAGE, yhoo + [LF] + two + [LF] + ten, [])]
  {
    var data1 := [] + yhoo;
    var data2, data3 := data1 + [LF] + two, data1 + [LF] + two + [LF] + ten;
    var r1, r2, r3 := START.(data := data1 + [LF]), START.(data := data2 + [LF]), START.(data := data3 + [LF]);
    DataLine(START, yhoo, DataText(two, DataText(ten, [LF] + [])), r1);
    DataLine(r1, two, DataText(ten, [LF] + []), r2);
    DataLine(r2, ten, [LF] + [], r3);
    BlankAfterData(r3, data3);
    assert data1 == yhoo;
  }

  /** "data" on a line by itself: an event with empty data. */
  lemma BareDataLine()
    ensures Read(START, BareText([LF] + [])).events == [Event(MESSAGE, [], [])]
  {
    var r1 := START.(data := [] + [LF]);
    BareData(START, [LF] + [], r1);
    BlankAfterData(r1, []);
  }

  /** Twice: an event with a line feed as its data. */
  lemma BareDataLines()
    ensures Read(START, BareText(BareText([LF] + []))).events == [Event(MESSAGE, [LF], [])]
  {
    var r1, r2 := START.(data := [LF]), START.(data := [LF] + [LF]);
    BareData(START, BareText([LF] + []), r1);
    BareData(r1, [LF] + [], r2);
    BlankAfterData(r2, [LF]);
  }

  function BareText(rest: seq<Scalar>): seq<Scalar> { [100, 97, 116, 97] + ([LF] + rest) }

  lemma BareData(r: Reader, rest: seq<Scalar>, next: Reader)
    requires next == r.(data := r.data + [LF])
    ensures Read(r, BareText(rest)).events == Read(next, rest).events
  {
    var line: seq<Scalar> := [100, 97, 116, 97];
    NamesAreNames();
    assert Find(COLON, line) == |line|;
    assert r.data + [] + [LF] == r.data + [LF];
    ReadLf(r, line, rest);
    assert [] + Read(next, rest).events == Read(next, rest).events;
  }
}
