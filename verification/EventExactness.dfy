/** When a single event frame reads back as the one event that was written, and only then. */
module EventExactness {
  import opened Characters
  import opened Options
  import opened Utf8
  import opened EventFrames
  import opened EventStream
  import opened EventRoundTrip

  // ----- no line end gets into an event type -----

  predicate CleanTypes(events: seq<Event>) {
    forall i :: 0 <= i < |events| ==> SingleLine(events[i].eventType) && events[i].eventType != []
  }

  lemma LineKeepsTypeClean(r: Reader, line: seq<Scalar>)
    requires SingleLine(r.eventType) && SingleLine(line)
    ensures SingleLine(ProcessLine(r, line).reader.eventType) && CleanTypes(ProcessLine(r, line).events)
  {
    if line != [] && line[0] != COLON {
      var colon := Find(COLON, line);
      if colon < |line| {
        assert forall c :: c in line[colon + 1..] ==> c in line;
      }
    }
  }

  lemma {:induction false} TypesAreClean(r: Reader, text: seq<Scalar>)
    requires SingleLine(r.eventType)
    ensures CleanTypes(Read(r, text).events)
    decreases |text|
  {
    var n := LineLength(text);
    if n < |text| {
      LineKeepsTypeClean(r, text[..n]);
      TypesAreClean(ProcessLine(r, text[..n]).reader, text[n + EndLength(text, n)..]);
    }
  }

  // ----- how much data a text can carry -----

  /** The data of the events, each with the line end that closed it. */
  function Size(events: seq<Event>): nat {
    if events == [] then 0 else |events[0].data| + 1 + Size(events[1..])
  }

  lemma {:induction false} SizeConcat(a: seq<Event>, b: seq<Event>)
    ensures Size(a + b) == Size(a) + Size(b)
  {
    if a == [] {
      assert a + b == b;
    } else {
      assert (a + b)[1..] == a[1..] + b;
      SizeConcat(a[1..], b);
    }
  }

  /** The data buffer is empty or ends with the line end it will lose. */
  predicate Closed(r: Reader) {
    r.data != [] ==> r.data[|r.data| - 1] == LF
  }

  /** A line adds data only behind a field name of four characters. */
  lemma LineAdds(r: Reader, line: seq<Scalar>)
    requires Closed(r)
    ensures var p := ProcessLine(r, line);
      && Closed(p.reader)
      && Size(p.events) + |p.reader.data| <= |r.data| + (if |line| >= 4 then |line| - 3 else 0)
  {
  }

  lemma {:induction false} TextCarries(r: Reader, text: seq<Scalar>)
    requires Closed(r)
    ensures Size(Read(r, text).events) <= |r.data| + (if |text| >= 4 then |text| - 4 else 0)
    decreases |text|
  {
    var n := LineLength(text);
    if n < |text| {
      var first, rest := ProcessLine(r, text[..n]), text[n + EndLength(text, n)..];
      LineAdds(r, text[..n]);
      TextCarries(first.reader, rest);
      SizeConcat(first.events, Read(first.reader, rest).events);
    }
  }

  /** A line and whatever ends it. */
  lemma ReadEndedLine(r: Reader, line: seq<Scalar>, rest: seq<Scalar>)
    requires SingleLine(line) && rest != [] && IsEnd(rest[0])
    ensures Read(r, line + rest).events
      == ProcessLine(r, line).events + Read(ProcessLine(r, line).reader, rest[EndLength(rest, 0)..]).events
  {
    var text, n := line + rest, |line|;
    LineEnds(line, rest);
    assert text[..n] == line && EndLength(text, n) == EndLength(rest, 0);
    assert text[n + EndLength(text, n)..] == rest[EndLength(rest, 0)..];
  }

  /** Data with a line end in it never comes back whole from the data line it was written to. */
  lemma BrokenDataIsNotRead(r: Reader, data: seq<Scalar>)
    requires r.data == [] && !SingleLine(data)
    ensures Size(Read(r, Line(DATA_NAME, data) + END + END).events) <= |data|
  {
    var i := LineLength(data);
    WholeLine(data);
    var first, rest := data[..i], data[i..] + END + END;
    assert Line(DATA_NAME, data) + END + END == Line(DATA_NAME, first) + rest;
    NamesAreNames();
    LineIsSingle(DATA_NAME, first);
    ReadEndedLine(r, Line(DATA_NAME, first), rest);
    FieldLine(r, DATA_NAME, first);
    var filled, after := Field(r, DATA_NAME, first), rest[EndLength(rest, 0)..];
    assert filled.data == [] + first + [LF];
    TextCarries(filled, after);
    assert [] + Read(filled, after).events == Read(filled, after).events;
  }

  lemma {:induction false} WholeLine(data: seq<Scalar>)
    ensures LineLength(data) < |data| <==> !SingleLine(data)
  {
    if LineLength(data) == |data| {
      assert data[..|data|] == data;
    } else {
      assert data[LineLength(data)] in data;
    }
  }

  // ----- exactness -----

  /** The frame reads back as one event, with the name and the data that were written. */
  predicate ReadsBack(e: SseEvent) {
    var reading := ReadStream(Written(EventFrame(e)));
    && reading.Some? && |reading.value.events| == 1
    && ToText(reading.value.events[0].eventType) == e.event
    && ToText(reading.value.events[0].data) == e.data
  }

  lemma OneFrameIsText(e: SseEvent)
    ensures ReadStream(Written(EventFrame(e))) == Some(Read(START, EventText(e)))
  {
    var frames := [EventFrame(e)];
    StreamIsText(frames);
    assert frames[1..] == [];
    assert WrittenAll(frames) == Written(frames[0]) + [] == Written(frames[0]);
    assert TextAll(frames) == FrameText(frames[0]) + [] == FrameText(frames[0]);
  }

  // ----- what an id leaves behind -----

  /** A text that ends with a line end is read first, and the rest by the reader it leaves. */
  lemma {:induction false} ReadSplits(r: Reader, text: seq<Scalar>, rest: seq<Scalar>)
    ensures ReadsAs(r, text + END, rest, Read(r, text + END))
    decreases |text|
  {
    var t, n := text + END, LineLength(text + END);
    LineWithin(text);
    var first := ProcessLine(r, t[..n]).reader;
    if n < |text| {
      var left := text[n + EndLength(t, n)..];
      DropFront(text, n + EndLength(t, n));
      ReadSplits(first, left, rest);
      LineSplits(r, t, n, left + END, rest);
    } else {
      NothingSplits(first, rest);
      LineSplits(r, t, n, [], rest);
    }
  }

  lemma NothingSplits(r: Reader, rest: seq<Scalar>)
    ensures ReadsAs(r, [], rest, Read(r, []))
  {
    assert [] + rest == rest && [] + Read(r, rest).events == Read(r, rest).events;
  }

  lemma ReadFirst(r: Reader, t: seq<Scalar>, n: nat, first: Reading, after: seq<Scalar>)
    requires n == LineLength(t) < |t| && first == ProcessLine(r, t[..n]) && after == t[n + EndLength(t, n)..]
    ensures Read(r, t)
      == Reading(Read(first.reader, after).reader, first.events + Read(first.reader, after).events)
  {
  }

  lemma RestFollows(t: seq<Scalar>, m: nat, after: seq<Scalar>, rest: seq<Scalar>)
    requires m <= |t| && after == t[m..]
    ensures (t + rest)[m..] == after + rest
  {
  }

  lemma LineSplits(r: Reader, t: seq<Scalar>, n: nat, after: seq<Scalar>, rest: seq<Scalar>)
    requires n == LineLength(t) < |t| && (n + 1 < |t| || t[n] == LF) && after == t[n + EndLength(t, n)..]
    requires var first := ProcessLine(r, t[..n]).reader; ReadsAs(first, after, rest, Read(first, after))
    ensures ReadsAs(r, t, rest, Read(r, t))
  {
    SameLine(t, n, rest);
    var first := ProcessLine(r, t[..n]);
    RestFollows(t, n + EndLength(t, n), after, rest);
    ReadFirst(r, t, n, first, after);
    ReadFirst(r, t + rest, n, first, after + rest);
    JoinReadings(first, Read(first.reader, after), Read(r, t), Read(r, t + rest), after, rest);
  }

  lemma JoinReadings(first: Reading, middle: Reading, short: Reading, long: Reading, after: seq<Scalar>, rest: seq<Scalar>)
    requires ReadsAs(first.reader, after, rest, middle)
    requires short == Reading(middle.reader, first.events + middle.events)
    requires var l := Read(first.reader, after + rest); long == Reading(l.reader, first.events + l.events)
    ensures var l := Read(short.reader, rest); long == Reading(l.reader, short.events + l.events)
  {
    Associate(first.events, middle.events, Read(middle.reader, rest).events);
  }

  lemma Associate(a: seq<Event>, b: seq<Event>, c: seq<Event>)
    ensures a + (b + c) == a + b + c
  {
  }

  /** The first line of a text that ends with CR LF ends within it. */
  lemma LineWithin(text: seq<Scalar>)
    ensures var t := text + END;
      var n := LineLength(t);
      n <= |text| && n + 1 < |t| && (n == |text| ==> EndLength(t, n) == 2) && (n < |text| ==> n + EndLength(t, n) <= |text|)
  {
    var t := text + END;
    var n := LineLength(t);
    assert t[|text|] == CR && t[|text| + 1] == LF;
    LineEndsBy(t, |text|);
  }

  lemma {:induction false} LineEndsBy(s: seq<Scalar>, k: nat)
    requires k < |s| && IsEnd(s[k])
    ensures LineLength(s) <= k
  {
    if k > 0 && !IsEnd(s[0]) { LineEndsBy(s[1..], k - 1); }
  }

  lemma DropFront(text: seq<Scalar>, k: nat)
    requires k <= |text|
    ensures (text + END)[k..] == text[k..] + END
  {
  }

  lemma SameLine(t: seq<Scalar>, n: nat, rest: seq<Scalar>)
    requires n == LineLength(t) < |t| && (n + 1 < |t| || t[n] == LF)
    ensures LineLength(t + rest) == n && (t + rest)[..n] == t[..n] && EndLength(t + rest, n) == EndLength(t, n)
  {
    assert t + rest == t[..n] + (t[n..] + rest);
    LineEnds(t[..n], t[n..] + rest);
  }

  /** The reader after the id lines of an event. */
  function AfterId(e: SseEvent): Reading { Read(START, IdText(e)) }

  /** The id lines dispatch nothing and leave no data: so it is with every one-line id, and with some others. */
  predicate HarmlessId(e: SseEvent) { AfterId(e).events == [] && AfterId(e).reader.data == [] }

  lemma OneLineIdIsHarmless(e: SseEvent)
    requires HasId(e) ==> SingleLineText(e.id.value)
    ensures HarmlessId(e)
  {
    ReadId(START, e, []);
    assert IdText(e) + [] == IdText(e);
  }

  function Tail(e: SseEvent): seq<Scalar> {
    Line(EVENT_NAME, Scalars(e.event)) + END + (Line(DATA_NAME, Scalars(e.data)) + END + END)
  }

  /** An event is read as its id lines, and then as the rest. */
  lemma ReadAfterId(e: SseEvent)
    ensures Read(START, EventText(e)).events == AfterId(e).events + Read(AfterId(e).reader, Tail(e)).events
  {
    assert EventText(e) == IdText(e) + Tail(e);
    if HasId(e) {
      ReadSplits(START, Line(ID_NAME, Scalars(e.id.value)), Tail(e));
    } else {
      assert IdText(e) + Tail(e) == Tail(e) && [] + Read(START, Tail(e)).events == Read(START, Tail(e)).events;
    }
  }

  /** A one-line name only sets the event type. */
  lemma ReadName(r: Reader, e: SseEvent)
    requires SingleLineText(e.event)
    ensures Read(r, Tail(e)).events
      == Read(r.(eventType := Scalars(e.event)), Line(DATA_NAME, Scalars(e.data)) + END + END).events
  {
    NamesAreNames();
    ScalarsOfLine(e.event);
    ReadField(r, EVENT_NAME, Scalars(e.event), Line(DATA_NAME, Scalars(e.data)) + END + END);
  }

  /** One-line data behind whatever data the reader already has. */
  lemma ReadOneLineData(r: Reader, data: seq<Scalar>)
    requires SingleLine(data) && r.eventType != []
    ensures Read(r, Line(DATA_NAME, data) + END + END).events == [Event(r.eventType, r.data + data, r.lastId)]
  {
    NamesAreNames();
    assert Line(DATA_NAME, data) + END + END == Line(DATA_NAME, data) + END + (END + []);
    ReadField(r, DATA_NAME, data, END + []);
    var filled := Field(r, DATA_NAME, data);
    assert filled.data == r.data + data + [LF] && filled.data[..|filled.data| - 1] == r.data + data;
    ReadBlank(filled, []);
  }

  /** Data that is waiting is not lost without an event. */
  lemma {:induction false} DataStays(r: Reader, text: seq<Scalar>)
    requires r.data != []
    ensures Read(r, text).events != [] || Read(r, text).reader.data != []
    decreases |text|
  {
    var n := LineLength(text);
    if n < |text| {
      var first, after := ProcessLine(r, text[..n]), text[n + EndLength(text, n)..];
      ReadFirst(r, text, n, first, after);
      LineKeepsData(r, text[..n]);
      if first.events == [] { DataStays(first.reader, after); }
    }
  }

  lemma LineKeepsData(r: Reader, line: seq<Scalar>)
    requires r.data != []
    ensures ProcessLine(r, line).events != [] || ProcessLine(r, line).reader.data != []
  {
  }

  /** Whatever is in the data, the frame's last line dispatches an event. */
  lemma TailDispatches(r: Reader, data: seq<Scalar>)
    ensures Read(r, Line(DATA_NAME, data) + END + END).events != []
  {
    var i := LineLength(data);
    WholeLine(data);
    var first, rest := data[..i], data[i..] + END + END;
    NamesAreNames();
    LineIsSingle(DATA_NAME, first);
    assert rest[0] == if i < |data| then data[i] else CR;
    assert Line(DATA_NAME, data) + END + END == Line(DATA_NAME, first) + rest;
    ReadEndedLine(r, Line(DATA_NAME, first), rest);
    FieldLine(r, DATA_NAME, first);
    BlankAtTheEnd(Field(r, DATA_NAME, first), data, i);
  }

  lemma BlankAtTheEnd(filled: Reader, data: seq<Scalar>, i: nat)
    requires filled.data != [] && i == LineLength(data)
    ensures var rest := data[i..] + END + END; Read(filled, rest[EndLength(rest, 0)..]).events != []
  {
    var rest := data[i..] + END + END;
    var after := rest[EndLength(rest, 0)..];
    if i == |data| {
      assert after == END + [];
      ReadBlank(filled, []);
    } else {
      var text := data[i + EndLength(rest, 0)..];
      assert after == text + END + (END + []);
      ReadSplits(filled, text, END + []);
      DataStays(filled, text + END);
      ReadBlank(Read(filled, text + END).reader, []);
    }
  }

  /** Text that reads back is well formed, and its scalar values are the ones read. */
  lemma ReadTextIsScalars(scalars: seq<Scalar>, text: Text)
    requires ToText(scalars) == text
    ensures WellFormed(text) && Scalars(text) == scalars
  {
    ScalarsOfText(scalars);
  }

  /** What the id does decides, unless a properly named event has a line end in its data and the id leaves data
      behind: then the lines of the one can stand in for what the other loses. */
  predicate IdDecides(e: SseEvent) {
    HarmlessId(e) || AfterId(e).events != [] || SingleLineText(e.data) || !SingleLineText(e.event) || e.event == []
  }

  /** A frame reads back as the event that was written exactly when its id lines neither dispatch an event nor
      leave data behind, the event has a name, neither name nor data has a line end, and both are well-formed
      text. */
  lemma ReadsBackExactly(e: SseEvent)
    requires IdDecides(e)
    ensures ReadsBack(e) <==>
      && HarmlessId(e) && e.event != [] && SingleLineText(e.event) && SingleLineText(e.data)
      && WellFormed(e.event) && WellFormed(e.data)
  {
    if !SingleLineText(e.event) || e.event == [] {
      NameMustBeClean(e);
    } else if SingleLineText(e.data) {
      OneLineDataExactly(e);
    } else {
      BrokenDataIsLost(e);
    }
  }

  // ----- an id that stands in for lost data -----

  /** The id "x", a line feed and "data: q", and the data "q", a line feed and "q". */
  const DATA_IN_ID: Text := [120, 10, 100, 97, 116, 97, 58, 32, 113]
  const TWO_LINES: Text := [113, 10, 113]

  lemma IdScalars(e: SseEvent)
    requires e.id == Some(DATA_IN_ID)
    ensures HasId(e) && Scalars(DATA_IN_ID) == [120, LF] + Line(DATA_NAME, [113])
  {
    PlainText(DATA_IN_ID, [120, LF] + Line(DATA_NAME, [113]));
    assert !IsWhiteSpace(DATA_IN_ID[0]);
  }

  lemma PlainText(text: Text, s: seq<Scalar>)
    requires |text| == |s| && forall i :: 0 <= i < |s| ==> text[i] == s[i] < 0xD800
    ensures Scalars(text) == s
  {
    forall u | u in text ensures !IsHigh(u) && !IsLow(u) {
      var i :| 0 <= i < |text| && text[i] == u;
    }
    PlainScalars(text);
  }

  lemma IdLines(tail: seq<Scalar>)
    ensures Line(ID_NAME, [120, LF] + tail) + END == Line(ID_NAME, [120]) + ([LF] + (tail + END))
  {
    assert [120, LF] + tail == [120] + ([LF] + tail);
    assert Line(ID_NAME, [120] + ([LF] + tail)) == Line(ID_NAME, [120]) + ([LF] + tail);
  }

  /** A line ended by a line feed alone. */
  lemma ReadIdLine(last: seq<Scalar>)
    ensures Read(START, Line(ID_NAME, [120]) + ([LF] + last)) == Read(Reader([], [], [120], None), last)
  {
    var line, named := Line(ID_NAME, [120]), Reader([], [], [120], None);
    var t := line + ([LF] + last);
    NamesAreNames();
    LineIsSingle(ID_NAME, [120]);
    LineEnds(line, [LF] + last);
    FieldLine(START, ID_NAME, [120]);
    assert t[..|line|] == line && t[|line| + 1..] == last;
    ReadFirst(START, t, |line|, Reading(named, []), last);
    assert [] + Read(named, last).events == Read(named, last).events;
  }

  lemma ReadDataLine(r: Reader)
    requires r.data == []
    ensures Read(r, Line(DATA_NAME, [113]) + END) == Reading(r.(data := [113, LF]), [])
  {
    NamesAreNames();
    ReadField(r, DATA_NAME, [113], []);
    assert Line(DATA_NAME, [113]) + END + [] == Line(DATA_NAME, [113]) + END;
    assert [] + [113] + [LF] == [113, LF];
  }

  lemma IdLeavesData(e: SseEvent)
    requires e.id == Some(DATA_IN_ID)
    ensures AfterId(e).reader == Reader([113, LF], [], [120], None) && AfterId(e).events == []
  {
    var line := Line(DATA_NAME, [113]);
    IdScalars(e);
    IdLines(line);
    ReadIdLine(line + END);
    ReadDataLine(Reader([], [], [120], None));
  }

  /** Behind it the first data line is kept, the second is no field, and the id has supplied what it loses. */
  lemma TwoLinesAreRead(r: Reader)
    requires r.data == [113, LF] && r.eventType == [101]
    ensures Read(r, Line(DATA_NAME, [113, LF, 113]) + END + END).events == [Event([101], [113, LF, 113], r.lastId)]
  {
    var second := [113] + END + (END + []);
    assert Line(DATA_NAME, [113, LF, 113]) == Line(DATA_NAME, [113]) + [LF, 113];
    assert Line(DATA_NAME, [113, LF, 113]) + END + END == Line(DATA_NAME, [113]) + ([LF] + second);
    DataThen(r, second);
    LastLineIsNoField(r.(data := [113, LF, 113, LF]));
  }

  lemma DataThen(r: Reader, second: seq<Scalar>)
    requires r.data == [113, LF] && (second == [] || second[0] != LF)
    ensures Read(r, Line(DATA_NAME, [113]) + ([LF] + second)).events == Read(r.(data := [113, LF, 113, LF]), second).events
  {
    NamesAreNames();
    LineIsSingle(DATA_NAME, [113]);
    ReadEndedLine(r, Line(DATA_NAME, [113]), [LF] + second);
    FieldLine(r, DATA_NAME, [113]);
    assert ([LF] + second)[1..] == second;
    assert [113, LF] + [113] + [LF] == [113, LF, 113, LF];
  }

  lemma LastLineIsNoField(filled: Reader)
    requires filled.data == [113, LF, 113, LF] && filled.eventType == [101]
    ensures Read(filled, [113] + END + (END + [])).events == [Event([101], [113, LF, 113], filled.lastId)]
  {
    assert Find(COLON, [113]) == 1;
    assert ProcessLine(filled, [113]) == Reading(filled, []);
    ReadLine(filled, [113], END + []);
    ReadBlank(filled, []);
    assert filled.data[..3] == [113, LF, 113];
  }

  lemma SuppliedEvent(e: SseEvent)
    requires e == SseEvent(Some(DATA_IN_ID), [101], TWO_LINES)
    ensures Read(START, EventText(e)).events == [Event([101], [113, LF, 113], [120])]
  {
    var r := Reader([113, LF], [], [120], None);
    IdLeavesData(e);
    ReadAfterId(e);
    SuppliedTail(e, r);
    assert [] + Read(r, Tail(e)).events == Read(r, Tail(e)).events;
  }

  lemma SuppliedTail(e: SseEvent, r: Reader)
    requires e.event == [101] && e.data == TWO_LINES && r.data == [113, LF]
    ensures Read(r, Tail(e)).events == [Event([101], [113, LF, 113], r.lastId)]
  {
    PlainText(e.event, [101]);
    PlainText(e.data, [113, LF, 113]);
    ReadName(r, e);
    TwoLinesAreRead(r.(eventType := [101]));
  }

  lemma ReadsBackFrom(e: SseEvent, event: Event)
    requires Read(START, EventText(e)).events == [event]
    requires ToText(event.eventType) == e.event && ToText(event.data) == e.data
    ensures ReadsBack(e)
  {
    OneFrameIsText(e);
  }

  /** So the id does not decide alone: this event has a line end in its data and reads back. */
  lemma DataInTheIdReadsBack(e: SseEvent)
    requires e == SseEvent(Some(DATA_IN_ID), [101], TWO_LINES)
    ensures ReadsBack(e) && !IdDecides(e)
  {
    SuppliedEvent(e);
    SuppliedText();
    ReadsBackFrom(e, Event([101], [113, LF, 113], [120]));
    SuppliedIsLeftOut(e);
  }

  lemma SuppliedIsLeftOut(e: SseEvent)
    requires e == SseEvent(Some(DATA_IN_ID), [101], TWO_LINES)
    ensures !IdDecides(e)
  {
    IdLeavesData(e);
    OneLetter();
    LineEndIsSeen(TWO_LINES, 1);
    NothingDecides(e);
  }

  lemma OneLetter()
    ensures SingleLineText([101])
  {
  }

  lemma LineEndIsSeen(text: Text, i: nat)
    requires i < |text| && text[i] == 10
    ensures !SingleLineText(text)
  {
  }

  lemma NothingDecides(e: SseEvent)
    requires AfterId(e).events == [] && AfterId(e).reader.data != []
    requires e.event != [] && SingleLineText(e.event) && !SingleLineText(e.data)
    ensures !IdDecides(e)
  {
  }

  lemma SuppliedText()
    ensures ToText([101]) == [101] && ToText([113, LF, 113]) == TWO_LINES
  {
    TextOfPlain([101]);
    TextOfPlain([113, LF, 113]);
  }

  lemma {:induction false} TextOfPlain(s: seq<Scalar>)
    requires IsAscii(s)
    ensures |ToText(s)| == |s| && forall i :: 0 <= i < |s| ==> ToText(s)[i] == s[i]
  {
    if s != [] { TextOfPlain(s[1..]); }
  }

  lemma NameMustBeClean(e: SseEvent)
    requires !SingleLineText(e.event) || e.event == []
    ensures !ReadsBack(e)
  {
    OneFrameIsText(e);
    TypesAreClean(START, EventText(e));
    ScalarsOfLine(e.event);
    if ReadsBack(e) { ReadTextIsScalars(Read(START, EventText(e)).events[0].eventType, e.event); }
  }

  /** The events of a frame with one-line name and data. */
  lemma OneLineFrame(e: SseEvent)
    requires SingleLineText(e.event) && SingleLineText(e.data) && e.event != []
    ensures Read(START, EventText(e)).events == AfterId(e).events
      + [Event(Scalars(e.event), AfterId(e).reader.data + Scalars(e.data), AfterId(e).reader.lastId)]
  {
    ReadAfterId(e);
    ReadName(AfterId(e).reader, e);
    ScalarsOfLine(e.event);
    ScalarsOfLine(e.data);
    ReadOneLineData(AfterId(e).reader.(eventType := Scalars(e.event)), Scalars(e.data));
  }

  lemma OneLineDataExactly(e: SseEvent)
    requires SingleLineText(e.event) && SingleLineText(e.data) && e.event != []
    ensures ReadsBack(e) <==> HarmlessId(e) && WellFormed(e.event) && WellFormed(e.data)
  {
    OneFrameIsText(e);
    OneLineFrame(e);
    TextOfScalars(e.event);
    TextOfScalars(e.data);
    var left := AfterId(e).reader.data;
    assert [] + Scalars(e.data) == Scalars(e.data);
    if ReadsBack(e) {
      ReadTextIsScalars(left + Scalars(e.data), e.data);
      ReadTextIsScalars(Scalars(e.event), e.event);
      assert |left + Scalars(e.data)| == |Scalars(e.data)|;
    }
  }

  lemma BrokenDataIsLost(e: SseEvent)
    requires SingleLineText(e.event) && !SingleLineText(e.data)
    requires HarmlessId(e) || AfterId(e).events != []
    ensures !ReadsBack(e)
  {
    OneFrameIsText(e);
    ReadAfterId(e);
    ReadName(AfterId(e).reader, e);
    if HarmlessId(e) {
      BrokenDataIsTooSmall(e);
    } else {
      TailDispatches(AfterId(e).reader.(eventType := Scalars(e.event)), Scalars(e.data));
    }
  }

  lemma BrokenDataIsTooSmall(e: SseEvent)
    requires !SingleLineText(e.data) && HarmlessId(e) && SingleLineText(e.event)
    ensures |Read(START, EventText(e)).events| == 1 ==> ToText(Read(START, EventText(e)).events[0].data) != e.data
  {
    BrokenEventsAreSmall(e);
    if |Read(START, EventText(e)).events| == 1 { TooSmall(e, Read(START, EventText(e)).events); }
  }

  lemma BrokenEventsAreSmall(e: SseEvent)
    requires !SingleLineText(e.data) && HarmlessId(e) && SingleLineText(e.event)
    ensures Size(Read(START, EventText(e)).events) <= |Scalars(e.data)|
  {
    ReadAfterId(e);
    BrokenTailIsSmall(AfterId(e).reader, e);
    NothingInFront(Read(AfterId(e).reader, Tail(e)).events);
  }

  lemma BrokenTailIsSmall(r: Reader, e: SseEvent)
    requires r.data == [] && !SingleLineText(e.data) && SingleLineText(e.event)
    ensures Size(Read(r, Tail(e)).events) <= |Scalars(e.data)|
  {
    ReadName(r, e);
    ScalarsOfLine(e.data);
    BrokenDataIsNotRead(r.(eventType := Scalars(e.event)), Scalars(e.data));
  }

  lemma NothingInFront(events: seq<Event>)
    ensures [] + events == events
  {
  }

  lemma TooSmall(e: SseEvent, events: seq<Event>)
    requires Size(events) <= |Scalars(e.data)| && |events| == 1
    ensures ToText(events[0].data) != e.data
  {
    if ToText(events[0].data) == e.data { ReadTextIsScalars(events[0].data, e.data); }
    OneEventSize(events);
  }

  lemma OneEventSize(events: seq<Event>)
    requires |events| == 1
    ensures Size(events) == |events[0].data| + 1
  {
    assert events[1..] == [];
  }
}
