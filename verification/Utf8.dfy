/** Text as UTF-16 code units, its scalar values, and its UTF-8 bytes (sections 3 and 4 of RFC 3629). */
module Utf8 {
  import opened Characters
  import opened Options

  type Unit = u: int | 0 <= u < 0x10000

  type Scalar = c: int | 0 <= c < 0x110000 && !(0xD800 <= c < 0xE000)

  type Text = seq<Unit>

  const CR := 13
  const LF := 10
  const REPLACEMENT: Scalar := 0xFFFD

  predicate IsHigh(u: Unit) { 0xD800 <= u < 0xDC00 }

  predicate IsLow(u: Unit) { 0xDC00 <= u < 0xE000 }

  /** The scalar value a text starts with and the number of units it takes; a surrogate without its
      partner reads as the replacement character. */
  function FirstScalar(text: Text): (r: (Scalar, nat))
    requires text != []
    ensures 1 <= r.1 <= 2 && r.1 <= |text|
    ensures r.0 >= 0x10000 <==> r.1 == 2
  {
    if IsHigh(text[0]) && |text| > 1 && IsLow(text[1])
    then (0x10000 + (text[0] as int - 0xD800) * 0x400 + (text[1] as int - 0xDC00), 2)
    else if IsHigh(text[0]) || IsLow(text[0]) then (REPLACEMENT, 1)
    else (text[0], 1)
  }

  function Scalars(text: Text): seq<Scalar> {
    if text == [] then []
    else
      var (c, n) := FirstScalar(text);
      [c] + Scalars(text[n..])
  }

  /** No surrogate stands alone. */
  predicate WellFormed(text: Text) {
    text == [] ||
    var (c, n) := FirstScalar(text);
    (n == 2 || !(IsHigh(text[0]) || IsLow(text[0]))) && WellFormed(text[n..])
  }

  function UnitsOf(c: Scalar): Text {
    if c < 0x10000 then [c] else [0xD800 + (c - 0x10000) / 0x400, 0xDC00 + (c - 0x10000) % 0x400]
  }

  function ToText(scalars: seq<Scalar>): Text {
    if scalars == [] then [] else UnitsOf(scalars[0]) + ToText(scalars[1..])
  }

  lemma FirstOfUnits(c: Scalar, rest: Text)
    ensures FirstScalar(UnitsOf(c) + rest) == (c, |UnitsOf(c)|)
  {
    if c >= 0x10000 {
      var q, r := (c - 0x10000) / 0x400, (c - 0x10000) % 0x400;
      assert c == 0x10000 + q * 0x400 + r;
    }
  }

  /** Text made from scalar values is well formed and gives them back. */
  lemma {:induction false} ScalarsOfText(scalars: seq<Scalar>)
    ensures Scalars(ToText(scalars)) == scalars && WellFormed(ToText(scalars))
  {
    if scalars != [] {
      var first, rest := UnitsOf(scalars[0]), ToText(scalars[1..]);
      FirstOfUnits(scalars[0], rest);
      assert (first + rest)[|first|..] == rest;
      ScalarsOfText(scalars[1..]);
    }
  }

  /** A text is recovered from its scalar values exactly when it is well formed. */
  lemma {:induction false} TextOfScalars(text: Text)
    ensures WellFormed(text) <==> ToText(Scalars(text)) == text
  {
    ScalarsOfText(Scalars(text));
    if WellFormed(text) && text != [] {
      var (c, n) := FirstScalar(text);
      TextOfScalars(text[n..]);
      FirstIsPrefix(text);
      assert Scalars(text)[1..] == Scalars(text[n..]);
      assert text == text[..n] + text[n..];
    }
  }

  lemma FirstIsPrefix(text: Text)
    requires text != [] && WellFormed(text)
    ensures UnitsOf(FirstScalar(text).0) == text[..FirstScalar(text).1]
  {
    var (c, n) := FirstScalar(text);
    if n == 2 {
      var q, r := text[0] as int - 0xD800, text[1] as int - 0xDC00;
      assert c - 0x10000 == q * 0x400 + r && 0 <= r < 0x400;
      assert (c - 0x10000) / 0x400 == q && (c - 0x10000) % 0x400 == r;
    }
  }

  // ----- UTF-8 -----

  function EncodeScalar(c: Scalar): (bytes: seq<Byte>)
    ensures 1 <= |bytes| <= 4
    ensures c < 0x80 ==> bytes == [c]
    ensures c >= 0x80 ==> forall i :: 0 <= i < |bytes| ==> bytes[i] >= 0x80
    ensures c < 0x10000 ==> |bytes| <= 3
  {
    if c < 0x80 then [c]
    else if c < 0x800 then [0xC0 + c / 64, 0x80 + c % 64]
    else if c < 0x10000 then [0xE0 + c / 4096, 0x80 + c / 64 % 64, 0x80 + c % 64]
    else [0xF0 + c / 262144, 0x80 + c / 4096 % 64, 0x80 + c / 64 % 64, 0x80 + c % 64]
  }

  function EncodeAll(scalars: seq<Scalar>): seq<Byte> {
    if scalars == [] then [] else EncodeScalar(scalars[0]) + EncodeAll(scalars[1..])
  }

  /** `Encoding.UTF8.GetBytes`. */
  function Encode(text: Text): seq<Byte> {
    EncodeAll(Scalars(text))
  }

  /** `Encoding.UTF8.GetMaxByteCount`: room for three bytes a unit, and one unit more for a surrogate
      left over from before. */
  function MaxByteCount(units: nat): nat {
    3 * (units + 1)
  }

  lemma {:induction false} EncodeFits(text: Text)
    ensures |Encode(text)| <= 3 * |text|
    ensures |Encode(text)| <= MaxByteCount(|text|)
  {
    if text != [] {
      var (c, n) := FirstScalar(text);
      EncodeFits(text[n..]);
      assert Scalars(text)[1..] == Scalars(text[n..]);
    }
  }

  predicate IsTail(b: Byte) { 0x80 <= b < 0xC0 }

  /** The scalar value a byte sequence starts with: no overlong form, no surrogate, nothing past the
      last code point. */
  function DecodeFirst(bytes: seq<Byte>): (r: Option<(Scalar, nat)>)
    ensures r.Some? ==> 1 <= r.value.1 <= |bytes|
  {
    if bytes == [] then None
    else
      var b := bytes[0];
      if b < 0x80 then Some((b, 1))
      else if 0xC2 <= b < 0xE0 && |bytes| >= 2 && IsTail(bytes[1]) then
        Some(((b as int - 0xC0) * 64 + (bytes[1] as int - 0x80), 2))
      else if 0xE0 <= b < 0xF0 && |bytes| >= 3 && IsTail(bytes[1]) && IsTail(bytes[2]) then
        var c := (b as int - 0xE0) * 4096 + (bytes[1] as int - 0x80) * 64 + (bytes[2] as int - 0x80);
        if c < 0x800 || 0xD800 <= c < 0xE000 then None else Some((c, 3))
      else if 0xF0 <= b < 0xF5 && |bytes| >= 4 && IsTail(bytes[1]) && IsTail(bytes[2]) && IsTail(bytes[3]) then
        var c := (b as int - 0xF0) * 262144 + (bytes[1] as int - 0x80) * 4096 + (bytes[2] as int - 0x80) * 64 + (bytes[3] as int - 0x80);
        if c < 0x10000 || c >= 0x110000 then None else Some((c, 4))
      else None
  }

  function Decode(bytes: seq<Byte>): Option<seq<Scalar>> {
    if bytes == [] then Some([])
    else
      var first := DecodeFirst(bytes);
      if first.None? then None
      else
        var rest := Decode(bytes[first.value.1..]);
        if rest.None? then None else Some([first.value.0] + rest.value)
  }

  lemma DecodeFirstEncoded(c: Scalar, rest: seq<Byte>)
    ensures DecodeFirst(EncodeScalar(c) + rest) == Some((c, |EncodeScalar(c)|))
  {
    Digits(c);
    if c >= 0x10000 { assert c / 262144 <= 4; }
  }

  /** The base-64 digits of a number below 2^24. */
  lemma Digits(c: nat)
    requires c < 0x1000000
    ensures c == c / 64 * 64 + c % 64
    ensures c / 64 == c / 4096 * 64 + c / 64 % 64
    ensures c / 4096 == c / 262144 * 64 + c / 4096 % 64
  {
    assert c / 64 / 64 == c / 4096;
    assert c / 4096 / 64 == c / 262144;
  }

  function Before(a: seq<Scalar>, rest: Option<seq<Scalar>>): Option<seq<Scalar>> {
    if rest.None? then None else Some(a + rest.value)
  }

  lemma BeforeBefore(c: Scalar, a: seq<Scalar>, rest: Option<seq<Scalar>>)
    requires a != [] && a[0] == c
    ensures Before([c], Before(a[1..], rest)) == Before(a, rest)
  {
    if rest.Some? {
      assert [c] + (a[1..] + rest.value) == a + rest.value;
    }
  }

  lemma DecodeStep(c: Scalar, tail: seq<Byte>)
    ensures Decode(EncodeScalar(c) + tail) == Before([c], Decode(tail))
  {
    DecodeFirstEncoded(c, tail);
    assert (EncodeScalar(c) + tail)[|EncodeScalar(c)|..] == tail;
  }

  lemma Regroup(a: seq<Byte>, b: seq<Byte>, c: seq<Byte>)
    ensures a + b + c == a + (b + c)
  {
  }

  /** Encoding is undone by decoding, also in front of more bytes. */
  lemma {:induction false} DecodeEncoded(a: seq<Scalar>, rest: seq<Byte>)
    ensures Decode(EncodeAll(a) + rest) == Before(a, Decode(rest))
  {
    if a == [] {
      assert EncodeAll(a) + rest == rest;
      assert Decode(rest).Some? ==> [] + Decode(rest).value == Decode(rest).value;
    } else {
      DecodeEncoded(a[1..], rest);
      DecodeStep(a[0], EncodeAll(a[1..]) + rest);
      Regroup(EncodeScalar(a[0]), EncodeAll(a[1..]), rest);
      BeforeBefore(a[0], a, Decode(rest));
    }
  }

  lemma {:induction false} EncodeAllConcat(a: seq<Scalar>, b: seq<Scalar>)
    ensures EncodeAll(a + b) == EncodeAll(a) + EncodeAll(b)
  {
    if a == [] {
      assert a + b == b;
    } else {
      assert (a + b)[1..] == a[1..] + b;
      EncodeAllConcat(a[1..], b);
    }
  }

  lemma DecodeWhole(a: seq<Scalar>)
    ensures Decode(EncodeAll(a)) == Some(a)
  {
    DecodeEncoded(a, []);
    assert EncodeAll(a) + [] == EncodeAll(a) && a + [] == a;
  }
}
