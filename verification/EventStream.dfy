/** Reading an event stream, after sections 9.2.5 and 9.2.6 of the WHATWG HTML Living Standard. */
module EventStream {
  import opened Characters
  import opened Options
  import opened Utf8

  const BOM: Scalar := 0xFEFF
  const COLON := 58
  const SPACE := 32

  // "event", "data", "id", "retry" and "message"
  const EVENT_NAME: seq<Scalar> := [101, 118, 101, 110, 116]
  const DATA_NAME: seq<Scalar> := [100, 97, 116, 97]
  const ID_NAME: seq<Scalar> := [105, 100]
  const RETRY_NAME: seq<Scalar> := [114, 101, 116, 114, 121]
  const MESSAGE: seq<Scalar> := [109, 101, 115, 115, 97, 103, 101]

  datatype Event = Event(eventType: seq<Scalar>, data: seq<Scalar>, lastId: seq<Scalar>)

  /** The three buffers and the reconnection time, none until one is received. */
  datatype Reader = Reader(data: seq<Scalar>, eventType: seq<Scalar>, lastId: seq<Scalar>, retry: Option<int>)

  datatype Reading = Reading(reader: Reader, events: seq<Event>)

  const START := Reader([], [], [], None)

  predicate IsEnd(c: Scalar) { c == CR || c == LF }

  predicate SingleLine(s: seq<Scalar>) {
    forall c :: c in s ==> !IsEnd(c)
  }

  /** Where the first line ends: its length, or the length of the text if nothing ends it. */
  function LineLength(text: seq<Scalar>): (n: nat)
    ensures n <= |text| && SingleLine(text[..n]) && (n < |text| ==> IsEnd(text[n]))
  {
    if text == [] || IsEnd(text[0]) then 0
    else
      var n := 1 + LineLength(text[1..]);
      assert text[..n] == [text[0]] + text[1..][..n - 1];
      n
  }

  /** A line ends with CR LF, with LF or with CR. */
  function EndLength(text: seq<Scalar>, n: nat): (e: nat)
    requires n < |text|
    ensures 1 <= e <= 2 && n + e <= |text|
  {
    if text[n] == CR && n + 1 < |text| && text[n + 1] == LF then 2 else 1
  }

  function Find(c: Scalar, s: seq<Scalar>): (i: nat)
    ensures i <= |s| && c !in s[..i] && (i < |s| ==> s[i] == c)
  {
    if s == [] || s[0] == c then 0
    else
      var i := 1 + Find(c, s[1..]);
      assert s[..i] == [s[0]] + s[1..][..i - 1];
      i
  }

  predicate IsDigits(s: seq<Scalar>) {
    s != [] && forall c :: c in s ==> 48 <= c <= 57
  }

  function Number(s: seq<Scalar>): int {
    if s == [] then 0 else 10 * Number(s[..|s| - 1]) + (s[|s| - 1] as int - 48)
  }

  function Field(r: Reader, name: seq<Scalar>, value: seq<Scalar>): Reader {
    if name == EVENT_NAME then r.(eventType := value)
    else if name == DATA_NAME then r.(data := r.data + value + [LF])
    else if name == ID_NAME then if 0 in value then r else r.(lastId := value)
    else if name == RETRY_NAME then if IsDigits(value) then r.(retry := Some(Number(value))) else r
    else r
  }

  function Dispatch(r: Reader): Reading {
    var cleared := r.(data := [], eventType := []);
    if r.data == [] then Reading(cleared, [])
    else
      var data := if r.data[|r.data| - 1] == LF then r.data[..|r.data| - 1] else r.data;
      Reading(cleared, [Event(if r.eventType == [] then MESSAGE else r.eventType, data, r.lastId)])
  }

  function ProcessLine(r: Reader, line: seq<Scalar>): Reading {
    if line == [] then Dispatch(r)
    else if line[0] == COLON then Reading(r, [])
    else
      var colon := Find(COLON, line);
      if colon == |line| then Reading(Field(r, line, []), [])
      else
        var value := line[colon + 1..];
        Reading(Field(r, line[..colon], if value != [] && value[0] == SPACE then value[1..] else value), [])
  }

  /** The lines of a text in order; what follows the last line end is never acted on. */
  function Read(r: Reader, text: seq<Scalar>): Reading
    decreases |text|
  {
    var n := LineLength(text);
    if n == |text| then Reading(r, [])
    else
      var first := ProcessLine(r, text[..n]);
      var rest := Read(first.reader, text[n + EndLength(text, n)..]);
      Reading(rest.reader, first.events + rest.events)
  }

  /** A whole stream: decoded as UTF-8, without a leading byte order mark. */
  function ReadStream(bytes: seq<Byte>): Option<Reading> {
    var text := Decode(bytes);
    if text.None? then None
    else Some(Read(START, if text.value != [] && text.value[0] == BOM then text.value[1..] else text.value))
  }
}
