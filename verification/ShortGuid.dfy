/** Guids printed as 22 characters of URL-safe Base64 and parsed back (sections 4 and 5 of RFC 4648). */
module ShortGuid {
  import opened Characters
  import opened Options

  type Sextet = d: int | 0 <= d < 64

  /** The sixteen bytes of `Guid.ToByteArray`, from which the Guid is rebuilt. */
  type Guid = seq<Byte>

  predicate IsEmptyGuid(g: Guid) { forall b :: b in g ==> b == 0 }

  datatype ShortGuid = ShortGuid(guid: Guid, value: string)

  datatype Error = ArgumentNull | BadFormat | BadByteCount

  datatype Result = Ok(shortGuid: ShortGuid) | Err(error: Error)

  // ----- Base64 -----

  function Digit(d: Sextet): char {
    if d < 26 then (65 + d) as char
    else if d < 52 then (71 + d) as char
    else if d < 62 then (d - 4) as char
    else if d == 62 then '+' else '/'
  }

  predicate InAlphabet(c: char) {
    'A' <= c <= 'Z' || 'a' <= c <= 'z' || '0' <= c <= '9' || c == '+' || c == '/'
  }

  function DigitValue(c: char): Sextet
    requires InAlphabet(c)
  {
    if 'A' <= c <= 'Z' then c as int - 65
    else if 'a' <= c <= 'z' then c as int - 71
    else if '0' <= c <= '9' then c as int + 4
    else if c == '+' then 62 else 63
  }

  lemma ValueOfDigit(d: Sextet)
    ensures InAlphabet(Digit(d)) && DigitValue(Digit(d)) == d
  {
  }

  lemma DigitOfValue(c: char)
    requires InAlphabet(c)
    ensures Digit(DigitValue(c)) == c
  {
  }

  predicate AllDigits(s: string) { forall i :: 0 <= i < |s| ==> InAlphabet(s[i]) }

  function Digits(values: seq<Sextet>): (s: string)
    ensures |s| == |values| && forall i :: 0 <= i < |s| ==> s[i] == Digit(values[i])
  {
    seq(|values|, i requires 0 <= i < |values| => Digit(values[i]))
  }

  function Values(s: string): (values: seq<Sextet>)
    requires AllDigits(s)
    ensures |values| == |s| && forall i :: 0 <= i < |s| ==> values[i] == DigitValue(s[i])
  {
    seq(|s|, i requires 0 <= i < |s| => DigitValue(s[i]))
  }

  // The four sextets of three bytes, and the three bytes of four sextets.
  function Sextet1(a: Byte): Sextet { a / 4 }
  function Sextet2(a: Byte, b: Byte): Sextet { a % 4 * 16 + b / 16 }
  function Sextet3(b: Byte, c: Byte): Sextet { b % 16 * 4 + c / 64 }
  function Sextet4(c: Byte): Sextet { c % 64 }
  function Byte1(p: Sextet, q: Sextet): Byte { p * 4 + q / 16 }
  function Byte2(q: Sextet, r: Sextet): Byte { q % 16 * 16 + r / 4 }
  function Byte3(r: Sextet, s: Sextet): Byte { r % 4 * 64 + s }

  /** Missing bits of the last group are zeros. */
  function Sextets(bytes: seq<Byte>): seq<Sextet> {
    if bytes == [] then []
    else if |bytes| == 1 then [Sextet1(bytes[0]), Sextet2(bytes[0], 0)]
    else if |bytes| == 2 then [Sextet1(bytes[0]), Sextet2(bytes[0], bytes[1]), Sextet3(bytes[1], 0)]
    else
      [Sextet1(bytes[0]), Sextet2(bytes[0], bytes[1]), Sextet3(bytes[1], bytes[2]), Sextet4(bytes[2])]
      + Sextets(bytes[3..])
  }

  /** Bits past the last whole byte are dropped. */
  function Bytes(v: seq<Sextet>): seq<Byte> {
    if |v| < 2 then []
    else if |v| == 2 then [Byte1(v[0], v[1])]
    else if |v| == 3 then [Byte1(v[0], v[1]), Byte2(v[1], v[2])]
    else [Byte1(v[0], v[1]), Byte2(v[1], v[2]), Byte3(v[2], v[3])] + Bytes(v[4..])
  }

  /** Whole groups keep the ratio of three to four; what is left over has one more sextet than bytes. */
  lemma {:induction false} SextetCount(bytes: seq<Byte>, groups: nat, left: nat)
    requires |bytes| == 3 * groups + left && left < 3
    ensures |Sextets(bytes)| == 4 * groups + if left == 0 then 0 else left + 1
  {
    if groups > 0 { SextetCount(bytes[3..], groups - 1, left); }
  }

  lemma {:induction false} ByteCount(v: seq<Sextet>, groups: nat, left: nat)
    requires |v| == 4 * groups + left && left < 4
    ensures |Bytes(v)| == 3 * groups + if left == 0 then 0 else left - 1
  {
    if groups > 0 { ByteCount(v[4..], groups - 1, left); }
  }

  function Padding(byteCount: nat): string {
    if byteCount % 3 == 0 then "" else if byteCount % 3 == 1 then "==" else "="
  }

  /** `Convert.ToBase64String`. */
  function ToBase64(bytes: seq<Byte>): string { Digits(Sextets(bytes)) + Padding(|bytes|) }

  function Unpadded(s: string): string {
    if |s| >= 2 && s[|s| - 2..] == "==" then s[..|s| - 2]
    else if |s| >= 1 && s[|s| - 1] == '=' then s[..|s| - 1]
    else s
  }

  /** Whole quanta of four characters, only the last of which may be padded. */
  function FromQuanta(s: string): Option<seq<Byte>> {
    if |s| % 4 != 0 || !AllDigits(Unpadded(s)) then None
    else Some(Bytes(Values(Unpadded(s))))
  }

  predicate IsBase64Space(c: char) { c == ' ' || c == '\t' || c == '\n' || c == '\r' }

  function WithoutSpaces(s: string): string {
    if s == "" then "" else (if IsBase64Space(s[0]) then "" else [s[0]]) + WithoutSpaces(s[1..])
  }

  /** `Convert.FromBase64String`. */
  function FromBase64(s: string): Option<seq<Byte>> {
    FromQuanta(WithoutSpaces(s))
  }

  // ----- the short form -----

  function Replace(s: string, from: char, to: char): (r: string)
    ensures |r| == |s| && forall i :: 0 <= i < |s| ==> r[i] == if s[i] == from then to else s[i]
  {
    seq(|s|, i requires 0 <= i < |s| => if s[i] == from then to else s[i])
  }

  function UrlSafe(s: string): string { Replace(Replace(s, '/', '_'), '+', '-') }

  function FromUrlSafe(s: string): string { Replace(Replace(s, '_', '/'), '-', '+') }

  lemma ShortLength(g: Guid)
    requires |g| == 16
    ensures |ToBase64(g)| == 24
    ensures ToBase64(g)[..22] == Digits(Sextets(g))
  {
    SextetCount(g, 5, 1);
  }

  /** The constructor: the empty Guid is refused. */
  function Create(g: Guid): Result
    requires |g| == 16
  {
    ShortLength(g);
    if IsEmptyGuid(g) then Err(ArgumentNull) else Ok(ShortGuid(g, UrlSafe(ToBase64(g)[..22])))
  }

  function Parse(s: string): Result {
    if forall c :: c in s ==> IsWhiteSpace(c as int) then Err(ArgumentNull)
    else if |s| != 22 then Err(BadFormat)
    else
      var bytes := FromBase64(FromUrlSafe(s) + "==");
      if bytes.None? then Err(BadFormat)
      else if |bytes.value| != 16 then Err(BadByteCount)
      else Create(bytes.value)
  }

  // ----- what parsing undoes -----

  predicate IsUrlSafe(c: char) {
    'A' <= c <= 'Z' || 'a' <= c <= 'z' || '0' <= c <= '9' || c == '-' || c == '_'
  }

  lemma FirstByte(a: Byte, b: Byte)
    ensures Byte1(Sextet1(a), Sextet2(a, b)) == a
  {
  }

  lemma SecondByte(a: Byte, b: Byte, c: Byte)
    ensures Byte2(Sextet2(a, b), Sextet3(b, c)) == b
  {
    assert Sextet2(a, b) % 16 == b / 16 && Sextet3(b, c) / 4 == b % 16;
  }

  lemma ThirdByte(b: Byte, c: Byte)
    ensures Byte3(Sextet3(b, c), Sextet4(c)) == c
  {
    assert Sextet3(b, c) % 4 == c / 64;
  }

  lemma FirstSextet(p: Sextet, q: Sextet)
    ensures Sextet1(Byte1(p, q)) == p
  {
  }

  lemma SecondSextet(p: Sextet, q: Sextet, r: Sextet)
    ensures Sextet2(Byte1(p, q), Byte2(q, r)) == q
  {
    assert Byte1(p, q) % 4 == q / 16 && Byte2(q, r) / 16 == q % 16;
  }

  lemma ThirdSextet(q: Sextet, r: Sextet, s: Sextet)
    ensures Sextet3(Byte2(q, r), Byte3(r, s)) == r
  {
    assert Byte2(q, r) % 16 == r / 4 && Byte3(r, s) / 64 == r % 4;
  }

  lemma FourthSextet(r: Sextet, s: Sextet)
    ensures Sextet4(Byte3(r, s)) == s
  {
  }

  /** Every byte sequence comes back from its sextets. */
  lemma {:induction false} BytesOfSextets(bytes: seq<Byte>)
    ensures Bytes(Sextets(bytes)) == bytes
  {
    if |bytes| == 1 {
      FirstByte(bytes[0], 0);
    } else if |bytes| == 2 {
      FirstByte(bytes[0], bytes[1]);
      SecondByte(bytes[0], bytes[1], 0);
    } else if |bytes| > 2 {
      FirstByte(bytes[0], bytes[1]);
      SecondByte(bytes[0], bytes[1], bytes[2]);
      ThirdByte(bytes[1], bytes[2]);
      BytesOfSextets(bytes[3..]);
      assert Sextets(bytes)[4..] == Sextets(bytes[3..]);
    }
  }

  /** The last sextet of a group that is not full stands for two or four bits only. */
  predicate DropsNothing(v: seq<Sextet>) {
    if |v| < 2 then v == []
    else if |v| == 2 then v[1] % 16 == 0
    else if |v| == 3 then v[2] % 4 == 0
    else DropsNothing(v[4..])
  }

  /** Sextets come back from their bytes exactly when no bit was dropped. */
  lemma {:induction false} SextetsOfBytes(v: seq<Sextet>)
    ensures Sextets(Bytes(v)) == v <==> DropsNothing(v)
  {
    if |v| == 2 {
      TwoSextets(v);
    } else if |v| == 3 {
      ThreeSextets(v);
    } else if |v| > 3 {
      SextetsOfBytes(v[4..]);
      FourSextets(v);
      SameTail(v[..4], Sextets(Bytes(v[4..])), v[4..]);
      assert v == v[..4] + v[4..];
    }
  }

  lemma SameTail(a: seq<Sextet>, b: seq<Sextet>, c: seq<Sextet>)
    ensures a + b == a + c <==> b == c
  {
    assert (a + b)[|a|..] == b && (a + c)[|a|..] == c;
  }

  lemma KeptBits(p: Sextet, q: Sextet)
    ensures Sextet2(Byte1(p, q), 0) == q <==> q % 16 == 0
    ensures Sextet3(Byte2(p, q), 0) == q <==> q % 4 == 0
  {
    assert Sextet2(Byte1(p, q), 0) == q / 16 * 16;
    assert Sextet3(Byte2(p, q), 0) == q / 4 * 4;
  }

  lemma TwoSextets(v: seq<Sextet>)
    requires |v| == 2
    ensures Sextets(Bytes(v)) == v <==> v[1] % 16 == 0
  {
    FirstSextet(v[0], v[1]);
    KeptBits(v[0], v[1]);
    var b := Byte1(v[0], v[1]);
    var z := Sextet2(b, 0);
    assert Bytes(v) == [b] && Sextets([b]) == [v[0], z];
    assert v == [v[0], v[1]];
  }

  lemma ThreeSextets(v: seq<Sextet>)
    requires |v| == 3
    ensures Sextets(Bytes(v)) == v <==> v[2] % 4 == 0
  {
    FirstSextet(v[0], v[1]);
    SecondSextet(v[0], v[1], v[2]);
    KeptBits(v[1], v[2]);
    var a, b := Byte1(v[0], v[1]), Byte2(v[1], v[2]);
    var z := Sextet3(b, 0);
    assert Bytes(v) == [a, b] && Sextets([a, b]) == [v[0], v[1], z];
    assert v == [v[0], v[1], v[2]];
  }

  lemma FourSextets(v: seq<Sextet>)
    requires |v| > 3
    ensures Sextets(Bytes(v)) == v[..4] + Sextets(Bytes(v[4..]))
  {
    FirstSextet(v[0], v[1]);
    SecondSextet(v[0], v[1], v[2]);
    ThirdSextet(v[1], v[2], v[3]);
    FourthSextet(v[2], v[3]);
    assert Bytes(v)[3..] == Bytes(v[4..]);
  }

  lemma ValuesOfDigits(v: seq<Sextet>)
    ensures AllDigits(Digits(v)) && Values(Digits(v)) == v
  {
    forall i | 0 <= i < |v| ensures InAlphabet(Digits(v)[i]) && DigitValue(Digits(v)[i]) == v[i] {
      ValueOfDigit(v[i]);
    }
  }

  lemma DigitsOfValues(s: string)
    requires AllDigits(s)
    ensures Digits(Values(s)) == s
  {
    forall i | 0 <= i < |s| ensures Digits(Values(s))[i] == s[i] { DigitOfValue(s[i]); }
  }

  lemma WholeQuanta(bytes: seq<Byte>)
    ensures |ToBase64(bytes)| % 4 == 0
  {
    var groups, left := |bytes| / 3, |bytes| % 3;
    SextetCount(bytes, groups, left);
    assert |ToBase64(bytes)| == 4 * (groups + if left == 0 then 0 else 1);
  }

  lemma UnpadDigits(digits: string, padding: string)
    requires AllDigits(digits) && padding in {"", "=", "=="}
    ensures Unpadded(digits + padding) == digits
  {
    var s := digits + padding;
    if digits != "" { assert InAlphabet(digits[|digits| - 1]); }
    if padding == "" {
      assert s == digits;
    } else if padding == "=" {
      if |s| >= 2 { assert s[|s| - 2..][0] == digits[|digits| - 1]; }
    } else {
      assert s[|s| - 2..] == "==";
    }
  }

  /** The two alphabets differ in two characters, and the replacements swap them. */
  lemma UrlSafeUndone(s: string)
    requires AllDigits(s)
    ensures FromUrlSafe(UrlSafe(s)) == s && forall c :: c in UrlSafe(s) ==> IsUrlSafe(c)
  {
    forall i | 0 <= i < |s| ensures FromUrlSafe(UrlSafe(s))[i] == s[i] && IsUrlSafe(UrlSafe(s)[i]) {
      assert s[i] in s;
    }
  }

  lemma {:induction false} NoSpaces(s: string)
    requires forall c :: c in s ==> !IsBase64Space(c)
    ensures WithoutSpaces(s) == s
  {
    if s != "" {
      assert s[0] in s && forall c :: c in s[1..] ==> c in s;
      NoSpaces(s[1..]);
    }
  }

  lemma {:induction false} SpacesShorten(s: string)
    ensures |WithoutSpaces(s)| <= |s|
    ensures |WithoutSpaces(s)| == |s| ==> forall c :: c in s ==> !IsBase64Space(c)
  {
    if s != "" { SpacesShorten(s[1..]); }
  }

  lemma Associate(a: string, b: string, c: string)
    ensures a + (b + c) == a + b + c
  {
  }

  lemma {:induction false} SpacesConcat(a: string, b: string)
    ensures WithoutSpaces(a + b) == WithoutSpaces(a) + WithoutSpaces(b)
  {
    if a == "" {
      assert a + b == b;
    } else {
      var tail := a[1..];
      assert (a + b)[1..] == tail + b;
      SpacesConcat(tail, b);
      Associate([a[0]], WithoutSpaces(tail), WithoutSpaces(b));
    }
  }

  /** Decoding undoes encoding, whatever the number of bytes. */
  lemma Base64RoundTrip(bytes: seq<Byte>)
    ensures FromBase64(ToBase64(bytes)) == Some(bytes)
  {
    var v := Sextets(bytes);
    ValuesOfDigits(v);
    BytesOfSextets(bytes);
    UnpadDigits(Digits(v), Padding(|bytes|));
    WholeQuanta(bytes);
    NoSpaces(ToBase64(bytes));
  }

  /** The sixteen bytes 22 digits stand for. */
  function ShortBytes(s: string): (bytes: seq<Byte>)
    requires |s| == 22 && AllDigits(s)
    ensures |bytes| == 16
  {
    ByteCount(Values(s), 5, 2);
    Bytes(Values(s))
  }

  /** What decoding makes of 22 characters with the padding put back: sixteen bytes exactly when all of
      them are digits; white space only makes the result shorter. */
  lemma DecodesToSixteenExactly(s: string)
    requires |s| == 22
    ensures var bytes := FromBase64(s + "==");
      && (bytes.Some? && |bytes.value| == 16 <==> AllDigits(s))
      && (AllDigits(s) ==> bytes == Some(ShortBytes(s)))
  {
    var t := WithoutSpaces(s);
    SpacesConcat(s, "==");
    NoSpaces("==");
    PaddedQuanta(t);
    SpacesShorten(s);
    if |t| % 4 == 2 && AllDigits(t) { ByteCount(Values(t), |t| / 4, 2); }
    if AllDigits(s) || |t| == 22 {
      NoSpaces(s);
    }
  }

  lemma PaddedQuanta(t: string)
    ensures Unpadded(t + "==") == t
    ensures FromQuanta(t + "==") == if |t| % 4 == 2 && AllDigits(t) then Some(Bytes(Values(t))) else None
  {
    assert (t + "==")[|t|..] == "==";
  }

  /** The 22 digits kept of the encoding stand for the Guid, without dropping a bit of it. */
  lemma ShortOfBytes(g: Guid)
    requires |g| == 16
    ensures var s := Digits(Sextets(g));
      |s| == 22 && AllDigits(s) && ShortBytes(s) == g && DropsNothing(Values(s))
  {
    SextetCount(g, 5, 1);
    ValuesOfDigits(Sextets(g));
    BytesOfSextets(g);
    SextetsOfBytes(Sextets(g));
  }

  // ----- the round trips -----

  lemma SafeIsNotSpace(c: char)
    requires InAlphabet(FromUrlSafe([c])[0])
    ensures !IsWhiteSpace(c as int)
  {
  }

  lemma ParseDigits(s: string)
    requires |s| == 22 && AllDigits(FromUrlSafe(s))
    ensures Parse(s) == Create(ShortBytes(FromUrlSafe(s)))
  {
    var t := FromUrlSafe(s);
    DecodesToSixteenExactly(t);
    assert InAlphabet(t[0]) && FromUrlSafe([s[0]])[0] == t[0];
    SafeIsNotSpace(s[0]);
    assert s[0] in s;
  }

  /** Printing gives 22 URL-safe characters, and parsing them gives the Guid back. */
  lemma PrintThenParse(g: Guid)
    requires |g| == 16 && !IsEmptyGuid(g)
    ensures Create(g).Ok?
    ensures var s := Create(g).shortGuid.value;
      |s| == 22 && (forall c :: c in s ==> IsUrlSafe(c)) && Parse(s) == Create(g)
  {
    ShortLength(g);
    ShortOfBytes(g);
    var digits := Digits(Sextets(g));
    UrlSafeUndone(digits);
    ParseDigits(UrlSafe(digits));
  }

  /** Distinct Guids print differently. */
  lemma PrintingIsInjective(g: Guid, h: Guid)
    requires |g| == 16 && |h| == 16 && !IsEmptyGuid(g) && !IsEmptyGuid(h) && g != h
    ensures Create(g).shortGuid.value != Create(h).shortGuid.value
  {
    PrintThenParse(g);
    PrintThenParse(h);
  }

  /** Parsing succeeds exactly on 22 characters of either alphabet that do not spell the empty Guid. */
  lemma ParsesExactly(s: string)
    ensures Parse(s).Ok? <==>
      |s| == 22 && AllDigits(FromUrlSafe(s)) && !IsEmptyGuid(ShortBytes(FromUrlSafe(s)))
    ensures Parse(s).Ok? ==> Parse(s) == Create(ShortBytes(FromUrlSafe(s)))
  {
    if |s| == 22 {
      DecodesToSixteenExactly(FromUrlSafe(s));
      if AllDigits(FromUrlSafe(s)) { ParseDigits(s); }
    }
  }

  /** A parsed text prints as itself exactly when it is URL-safe and its last digit drops no bits; other
      texts are second spellings of a Guid. */
  lemma ParseThenPrintExactly(s: string)
    requires Parse(s).Ok?
    ensures AllDigits(FromUrlSafe(s))
    ensures Parse(s).shortGuid.value == s <==>
      (forall c :: c in s ==> IsUrlSafe(c)) && DropsNothing(Values(FromUrlSafe(s)))
  {
    ParsesExactly(s);
    var t := FromUrlSafe(s);
    PrintedAgain(t);
    var digits := Digits(Sextets(ShortBytes(t)));
    UrlSafeUndone(digits);
    if forall c :: c in s ==> IsUrlSafe(c) { UrlSafeAgain(s); }
  }

  lemma PrintedAgain(t: string)
    requires |t| == 22 && AllDigits(t) && !IsEmptyGuid(ShortBytes(t))
    ensures var digits := Digits(Sextets(ShortBytes(t)));
      && Create(ShortBytes(t)) == Ok(ShortGuid(ShortBytes(t), UrlSafe(digits)))
      && AllDigits(digits) && (digits == t <==> DropsNothing(Values(t)))
  {
    ShortLength(ShortBytes(t));
    ValuesOfDigits(Sextets(ShortBytes(t)));
    PrintedDigits(t);
  }

  lemma PrintedDigits(t: string)
    requires |t| == 22 && AllDigits(t)
    ensures Digits(Sextets(ShortBytes(t))) == t <==> DropsNothing(Values(t))
  {
    SextetsOfBytes(Values(t));
    DigitsOfValues(t);
    ValuesOfDigits(Sextets(ShortBytes(t)));
  }

  lemma UrlSafeAgain(s: string)
    requires forall c :: c in s ==> IsUrlSafe(c)
    ensures UrlSafe(FromUrlSafe(s)) == s
  {
    forall i | 0 <= i < |s| ensures UrlSafe(FromUrlSafe(s))[i] == s[i] { assert s[i] in s; }
  }
}
