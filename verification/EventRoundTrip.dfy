/** Frames read back by a conforming reader: exactly what was written, exactly when it is single-line text. */
module EventRoundTrip {
  import opened Characters
  import opened Options
  import opened Utf8
  import opened EventFrames
  import opened EventStream

  datatype Frame =
    | EventFrame(event: SseEvent)
    | TextFrame(text: Text)
    | CommentFrame(comment: Text)
    | RetryFrame(interval: nat)

  function Written(f: Frame): seq<Byte> {
    match f
    case EventFrame(e) => EventBytes(e)
    case TextFrame(text) => FieldBytes(DATA_FIELD, text) + CRLF
    case CommentFrame(comment) => FieldBytes(COMMENT_FIELD, comment) + CRLF
    case RetryFrame(n) => FieldBytes(RETRY_FIELD, Decimal(n)) + CRLF
  }

  function WrittenAll(frames: seq<Frame>): seq<Byte> {
    if frames == [] then [] else Written(frames[0]) + WrittenAll(frames[1..])
  }

  // ----- the frames as scalar values -----

  const END: seq<Scalar> := [CR, LF]

  function Line(name: seq<Scalar>, value: seq<Scalar>): seq<Scalar> {
    name + [COLON, SPACE] + value
  }

  function IdText(e: SseEvent): seq<Scalar> {
    if HasId(e) then Line(ID_NAME, Scalars(e.id.value)) + END else []
  }

  function EventText(e: SseEvent): seq<Scalar> {
    IdText(e) + (Line(EVENT_NAME, Scalars(e.event)) + END) + (Line(DATA_NAME, Scalars(e.data)) + END) + END
  }

  function FrameText(f: Frame): seq<Scalar> {
    match f
    case EventFrame(e) => EventText(e)
    case TextFrame(text) => Line(DATA_NAME, Scalars(text)) + END + END
    case CommentFrame(comment) => Line([], Scalars(comment)) + END + END
    case RetryFrame(n) => Line(RETRY_NAME, Scalars(Decimal(n))) + END + END
  }

  predicate IsAscii(s: seq<Scalar>) {
    forall i :: 0 <= i < |s| ==> s[i] < 0x80
  }

  lemma {:induction false} AsciiEncodesAsItself(s: seq<Scalar>)
    requires IsAscii(s)
    ensures |EncodeAll(s)| == |s| && forall i :: 0 <= i < |s| ==> EncodeAll(s)[i] == s[i]
  {
    if s != [] { AsciiEncodesAsItself(s[1..]); }
  }

  lemma FieldIsEncodedLine(field: seq<Byte>, name: seq<Scalar>, data: Text)
    requires IsAscii(name) && |field| == |name| + 2 && field[|name|] == COLON && field[|name| + 1] == SPACE
    requires forall i :: 0 <= i < |name| ==> field[i] == name[i]
    ensures FieldBytes(field, data) == EncodeAll(Line(name, Scalars(data)) + END)
  {
    var prefix := name + [COLON, SPACE];
    AsciiEncodesAsItself(prefix);
    assert EncodeAll(prefix) == field;
    AsciiEncodesAsItself(END);
    assert EncodeAll(END) == CRLF;
    EncodeAllConcat(prefix, Scalars(data));
    EncodeAllConcat(prefix + Scalars(data), END);
  }

  lemma EndIsEncoded()
    ensures EncodeAll(END) == CRLF
  {
    AsciiEncodesAsItself(END);
    assert EncodeAll(END) == CRLF;
  }

  lemma EventIsEncoded(e: SseEvent)
    ensures EventBytes(e) == EncodeAll(EventText(e))
  {
    var id, ev, data := IdText(e), Line(EVENT_NAME, Scalars(e.event)) + END, Line(DATA_NAME, Scalars(e.data)) + END;
    if HasId(e) { FieldIsEncodedLine(ID_FIELD, ID_NAME, e.id.value); }
    FieldIsEncodedLine(EVENT_FIELD, EVENT_NAME, e.event);
    FieldIsEncodedLine(DATA_FIELD, DATA_NAME, e.data);
    EndIsEncoded();
    EncodeAllConcat(id, ev);
    EncodeAllConcat(id + ev, data);
    EncodeAllConcat(id + ev + data, END);
  }

  lemma FrameIsEncoded(f: Frame)
    ensures Written(f) == EncodeAll(FrameText(f))
  {
    EndIsEncoded();
    match f
    case EventFrame(e) => EventIsEncoded(e);
    case TextFrame(text) =>
      FieldIsEncodedLine(DATA_FIELD, DATA_NAME, text);
      EncodeAllConcat(Line(DATA_NAME, Scalars(text)) + END, END);
    case CommentFrame(comment) =>
      FieldIsEncodedLine(COMMENT_FIELD, [], comment);
      EncodeAllConcat(Line([], Scalars(comment)) + END, END);
    case RetryFrame(n) =>
      FieldIsEncodedLine(RETRY_FIELD, RETRY_NAME, Decimal(n));
      EncodeAllConcat(Line(RETRY_NAME, Scalars(Decimal(n))) + END, END);
  }

  function TextAll(frames: seq<Frame>): seq<Scalar> {
    if frames == [] then [] else FrameText(frames[0]) + TextAll(frames[1..])
  }

  lemma {:induction false} FramesAreEncoded(frames: seq<Frame>)
    ensures WrittenAll(frames) == EncodeAll(TextAll(frames))
  {
    if frames != [] {
      FrameIsEncoded(frames[0]);
      FramesAreEncoded(frames[1..]);
      EncodeAllConcat(FrameText(frames[0]), TextAll(frames[1..]));
    }
  }

  lemma NoByteOrderMark(frames: seq<Frame>)
    ensures TextAll(frames) != [] ==> TextAll(frames)[0] != BOM
  {
  }

  /** The stream of any frames is decodable, and is read as their text. */
  lemma StreamIsText(frames: seq<Frame>)
    ensures ReadStream(WrittenAll(frames)) == Some(Read(START, TextAll(frames)))
  {
    FramesAreEncoded(frames);
    DecodeWhole(TextAll(frames));
    NoByteOrderMark(frames);
  }

  // ----- reading line by line -----

  lemma {:induction false} LineEnds(line: seq<Scalar>, rest: seq<Scalar>)
    requires SingleLine(line) && rest != [] && IsEnd(rest[0])
    ensures LineLength(line + rest) == |line|
  {
    if line == [] {
      assert line + rest == rest;
    } else {
      assert line[0] in line && forall c :: c in line[1..] ==> c in line;
      LineEnds(line[1..], rest);
      assert (line + rest)[1..] == line[1..] + rest;
    }
  }

  lemma ReadLine(r: Reader, line: seq<Scalar>, rest: seq<Scalar>)
    requires SingleLine(line)
    ensures var first := ProcessLine(r, line);
      var after := Read(first.reader, rest);
      Read(r, line + END + rest) == Reading(after.reader, first.events + after.events)
  {
    var text := line + END + rest;
    assert text == line + (END + rest);
    LineEnds(line, END + rest);
    assert text[..|line|] == line && text[|line| + 2..] == rest;
  }

  lemma {:induction false} FindFirst(c: Scalar, before: seq<Scalar>, rest: seq<Scalar>)
    requires c !in before && rest != [] && rest[0] == c
    ensures Find(c, before + rest) == |before|
  {
    if before == [] {
      assert before + rest == rest;
    } else {
      assert before[0] in before && forall d :: d in before[1..] ==> d in before;
      FindFirst(c, before[1..], rest);
      assert (before + rest)[1..] == before[1..] + rest;
    }
  }

  lemma FieldLine(r: Reader, name: seq<Scalar>, value: seq<Scalar>)
    requires name != [] && COLON !in name
    ensures ProcessLine(r, Line(name, value)) == Reading(Field(r, name, value), [])
  {
    var line := Line(name, value);
    assert line == name + ([COLON, SPACE] + value);
    assert name[0] in name;
    FindFirst(COLON, name, [COLON, SPACE] + value);
    assert line[..|name|] == name && line[|name| + 1..] == [SPACE] + value && ([SPACE] + value)[1..] == value;
  }

  lemma LineIsSingle(name: seq<Scalar>, value: seq<Scalar>)
    requires SingleLine(name) && SingleLine(value)
    ensures SingleLine(Line(name, value))
  {
  }

  /** One field line of a frame. */
  lemma ReadField(r: Reader, name: seq<Scalar>, value: seq<Scalar>, rest: seq<Scalar>)
    requires name != [] && COLON !in name && SingleLine(name) && SingleLine(value)
    ensures Read(r, Line(name, value) + END + rest) == Read(Field(r, name, value), rest)
  {
    LineIsSingle(name, value);
    ReadLine(r, Line(name, value), rest);
    FieldLine(r, name, value);
    var after := Read(Field(r, name, value), rest);
    assert [] + after.events == after.events;
  }

  lemma ReadBlank(r: Reader, rest: seq<Scalar>)
    ensures var after := Read(Dispatch(r).reader, rest);
      Read(r, END + rest) == Reading(after.reader, Dispatch(r).events + after.events)
  {
    ReadLine(r, [], rest);
    assert [] + END + rest == END + rest;
  }

  // ----- the round trip -----

  predicate SingleLineText(text: Text) {
    forall i :: 0 <= i < |text| ==> text[i] != CR && text[i] != LF
  }

  /** No field of the frame has a line end in it. */
  predicate OneLineEach(f: Frame) {
    match f
    case EventFrame(e) => (HasId(e) ==> SingleLineText(e.id.value)) && SingleLineText(e.event) && SingleLineText(e.data)
    case TextFrame(text) => SingleLineText(text)
    case CommentFrame(comment) => SingleLineText(comment)
    case RetryFrame(_) => true
  }

  /** What a frame means to a reader with empty buffers: an event with its name, data and the last id
      seen, a reconnection time, or nothing. */
  function Meaning(r: Reader, f: Frame): Reading {
    match f
    case EventFrame(e) =>
      var id := if HasId(e) && 0 !in Scalars(e.id.value) then Scalars(e.id.value) else r.lastId;
      Reading(r.(lastId := id), [Event(if e.event == [] then MESSAGE else Scalars(e.event), Scalars(e.data), id)])
    case TextFrame(text) => Reading(r, [Event(MESSAGE, Scalars(text), r.lastId)])
    case CommentFrame(_) => Reading(r, [])
    case RetryFrame(n) => Reading(r.(retry := Some(n)), [])
  }

  function MeaningAll(r: Reader, frames: seq<Frame>): Reading
    decreases |frames|
  {
    if frames == [] then Reading(r, [])
    else
      var first := Meaning(r, frames[0]);
      var rest := MeaningAll(first.reader, frames[1..]);
      Reading(rest.reader, first.events + rest.events)
  }

  predicate Idle(r: Reader) { r.data == [] && r.eventType == [] }

  lemma FirstEndsLine(text: Text)
    requires text != []
    ensures IsEnd(FirstScalar(text).0) <==> text[0] == CR || text[0] == LF
    ensures FirstScalar(text).1 == 2 ==> |text| > 1 && text[1] != CR && text[1] != LF
  {
  }

  lemma {:induction false} ScalarsOfLine(text: Text)
    ensures SingleLine(Scalars(text)) <==> SingleLineText(text)
    ensures Scalars(text) == [] <==> text == []
  {
    if text != [] {
      var (c, n) := FirstScalar(text);
      FirstEndsLine(text);
      ScalarsOfLine(text[n..]);
      assert Scalars(text) == [c] + Scalars(text[n..]);
      SingleLineCons(c, Scalars(text[n..]));
      assert forall i :: n <= i < |text| ==> text[i] == text[n..][i - n];
      assert SingleLineText(text) <==> !IsEnd(c) && SingleLineText(text[n..]);
    }
  }

  lemma SingleLineCons(c: Scalar, rest: seq<Scalar>)
    ensures SingleLine([c] + rest) <==> !IsEnd(c) && SingleLine(rest)
  {
    assert c in [c] + rest && forall d :: d in rest ==> d in [c] + rest;
  }

  lemma {:induction false} PlainScalars(text: Text)
    requires forall u :: u in text ==> !IsHigh(u) && !IsLow(u)
    ensures |Scalars(text)| == |text| && forall i :: 0 <= i < |text| ==> Scalars(text)[i] == text[i]
  {
    if text != [] {
      assert text[0] in text && forall u :: u in text[1..] ==> u in text;
      PlainScalars(text[1..]);
    }
  }

  lemma {:induction false} DecimalReadsBack(n: nat)
    ensures IsDigits(Scalars(Decimal(n))) && Number(Scalars(Decimal(n))) == n
  {
    var digits := Decimal(n);
    var s := Scalars(digits);
    PlainScalars(digits);
    forall i | 0 <= i < |s| ensures 48 <= s[i] <= 57 { assert digits[i] in digits; }
    if n >= 10 {
      DecimalReadsBack(n / 10);
      PlainScalars(Decimal(n / 10));
      assert s[..|s| - 1] == Scalars(Decimal(n / 10));
    } else {
      assert s[..0] == [];
    }
  }

  lemma NamesAreNames()
    ensures COLON !in EVENT_NAME && COLON !in DATA_NAME && COLON !in ID_NAME && COLON !in RETRY_NAME
    ensures SingleLine(EVENT_NAME) && SingleLine(DATA_NAME) && SingleLine(ID_NAME) && SingleLine(RETRY_NAME)
  {
  }

  lemma ReadId(r: Reader, e: SseEvent, rest: seq<Scalar>)
    requires HasId(e) ==> SingleLineText(e.id.value)
    ensures Read(r, IdText(e) + rest) == Read(if HasId(e) then Field(r, ID_NAME, Scalars(e.id.value)) else r, rest)
  {
    NamesAreNames();
    if HasId(e) {
      ScalarsOfLine(e.id.value);
      ReadField(r, ID_NAME, Scalars(e.id.value), rest);
    } else {
      assert IdText(e) + rest == rest;
    }
  }

  /** A data line in front of a blank line, with whatever event type was set before. */
  lemma ReadData(r: Reader, data: seq<Scalar>, rest: seq<Scalar>)
    requires SingleLine(data) && r.data == []
    ensures var cleared := r.(eventType := []);
      var event := Event(if r.eventType == [] then MESSAGE else r.eventType, data, r.lastId);
      var after := Read(cleared, rest);
      Read(r, Line(DATA_NAME, data) + END + (END + rest)) == Reading(after.reader, [event] + after.events)
  {
    NamesAreNames();
    ReadField(r, DATA_NAME, data, END + rest);
    var filled := Field(r, DATA_NAME, data);
    DispatchFilled(filled, data);
    ReadBlank(filled, rest);
  }

  lemma DispatchFilled(filled: Reader, data: seq<Scalar>)
    requires filled.data == [] + data + [LF]
    ensures Dispatch(filled) == Reading(filled.(data := [], eventType := []),
      [Event(if filled.eventType == [] then MESSAGE else filled.eventType, data, filled.lastId)])
  {
    assert filled.data == data + [LF] && (data + [LF])[..|data|] == data;
  }

  /** Reading a frame in front of more text. */
  predicate ReadsAs(r: Reader, text: seq<Scalar>, rest: seq<Scalar>, meaning: Reading) {
    var after := Read(meaning.reader, rest);
    Read(r, text + rest) == Reading(after.reader, meaning.events + after.events)
  }

  lemma ReadEventFrame(r: Reader, e: SseEvent, rest: seq<Scalar>)
    requires Idle(r) && OneLineEach(EventFrame(e))
    ensures ReadsAs(r, EventText(e), rest, Meaning(r, EventFrame(e)))
  {
    NamesAreNames();
    ScalarsOfLine(e.event);
    ScalarsOfLine(e.data);
    var ev, data := Line(EVENT_NAME, Scalars(e.event)) + END, Line(DATA_NAME, Scalars(e.data)) + END;
    assert EventText(e) + rest == IdText(e) + (ev + (data + (END + rest)));
    ReadId(r, e, ev + (data + (END + rest)));
    var r1 := if HasId(e) then Field(r, ID_NAME, Scalars(e.id.value)) else r;
    ReadField(r1, EVENT_NAME, Scalars(e.event), data + (END + rest));
    ReadData(Field(r1, EVENT_NAME, Scalars(e.event)), Scalars(e.data), rest);
  }

  lemma ReadCommentFrame(r: Reader, comment: seq<Scalar>, rest: seq<Scalar>)
    requires Idle(r) && SingleLine(comment)
    ensures ReadsAs(r, Line([], comment) + END + END, rest, Reading(r, []))
  {
    var line := Line([], comment);
    assert line + END + END + rest == line + END + (END + rest);
    LineIsSingle([], comment);
    ReadLine(r, line, END + rest);
    ReadBlank(r, rest);
  }

  lemma ReadRetryFrame(r: Reader, n: nat, rest: seq<Scalar>)
    requires Idle(r)
    ensures ReadsAs(r, FrameText(RetryFrame(n)), rest, Meaning(r, RetryFrame(n)))
  {
    NamesAreNames();
    var digits := Scalars(Decimal(n));
    DecimalReadsBack(n);
    assert FrameText(RetryFrame(n)) + rest == Line(RETRY_NAME, digits) + END + (END + rest);
    ReadField(r, RETRY_NAME, digits, END + rest);
    ReadBlank(r.(retry := Some(n)), rest);
  }

  lemma ReadFrame(r: Reader, f: Frame, rest: seq<Scalar>)
    requires Idle(r) && OneLineEach(f)
    ensures ReadsAs(r, FrameText(f), rest, Meaning(r, f))
  {
    match f
    case EventFrame(e) => ReadEventFrame(r, e, rest);
    case TextFrame(text) =>
      ScalarsOfLine(text);
      assert FrameText(f) + rest == Line(DATA_NAME, Scalars(text)) + END + (END + rest);
      ReadData(r, Scalars(text), rest);
    case CommentFrame(comment) =>
      ScalarsOfLine(comment);
      ReadCommentFrame(r, Scalars(comment), rest);
    case RetryFrame(n) => ReadRetryFrame(r, n, rest);
  }

  lemma {:induction false} ReadFrames(r: Reader, frames: seq<Frame>)
    requires Idle(r) && forall i :: 0 <= i < |frames| ==> OneLineEach(frames[i])
    ensures Read(r, TextAll(frames)) == MeaningAll(r, frames)
    decreases |frames|
  {
    if frames != [] {
      ReadFrame(r, frames[0], TextAll(frames[1..]));
      ReadFrames(Meaning(r, frames[0]).reader, frames[1..]);
    }
  }

  /** Any frames without line ends in their fields, written one after the other, are read back one by
      one: every event with its name, data and id, and every reconnection time. */
  lemma StreamRoundTrip(frames: seq<Frame>)
    requires forall i :: 0 <= i < |frames| ==> OneLineEach(frames[i])
    ensures ReadStream(WrittenAll(frames)) == Some(MeaningAll(START, frames))
  {
    StreamIsText(frames);
    ReadFrames(START, frames);
  }
}
