/** The alphabets character by character, the examples of section 10 of RFC 4648, and what parsing answers to any text. */
module ShortGuidAnswer {
  import opened Characters
  import opened Options
  import opened ShortGuid

  /** Table 1 of RFC 4648. */
  lemma DigitsInOrder(d: Sextet)
    ensures d < 26 ==> Digit(d) == "ABCDEFGHIJKLMNOPQRSTUVWXYZ"[d]
    ensures 26 <= d < 52 ==> Digit(d) == "abcdefghijklmnopqrstuvwxyz"[d - 26]
    ensures 52 <= d < 62 ==> Digit(d) == "0123456789"[d - 52]
    ensures d == 62 ==> Digit(d) == '+'
    ensures d == 63 ==> Digit(d) == '/'
  {
  }

  lemma OneToThreeBytes()
    ensures ToBase64([]) == "" && ToBase64([102]) == "Zg==" && ToBase64([102, 111]) == "Zm8="
    ensures ToBase64([102, 111, 111]) == "Zm9v"
  {
    assert [102, 111, 111][3..] == [];
    assert Sextets([102]) == [25, 32] && Sextets([102, 111]) == [25, 38, 60];
    assert Sextets([102, 111, 111]) == [25, 38, 61, 47] + [];
    assert Digits([25, 32]) == "Zg" && Digits([25, 38, 60]) == "Zm8" && Digits([25, 38, 61, 47]) == "Zm9v";
  }

  lemma DigitsConcat(v: seq<Sextet>, w: seq<Sextet>)
    ensures Digits(v + w) == Digits(v) + Digits(w)
  {
  }

  lemma SextetsConcat(group: seq<Byte>, rest: seq<Byte>)
    requires |group| == 3
    ensures Sextets(group + rest) == Sextets(group) + Sextets(rest)
  {
    assert (group + rest)[3..] == rest && group[3..] == [];
  }

  lemma PaddingSkips(n: nat)
    ensures Padding(n + 3) == Padding(n) && Padding(3) == ""
  {
  }

  lemma Regroup(a: string, b: string, p: string)
    ensures a + b + p == a + "" + (b + p)
  {
  }

  lemma GroupsConcat(group: seq<Byte>, rest: seq<Byte>)
    requires |group| == 3
    ensures ToBase64(group + rest) == ToBase64(group) + ToBase64(rest)
  {
    SextetsConcat(group, rest);
    DigitsConcat(Sextets(group), Sextets(rest));
    PaddingSkips(|rest|);
    Regroup(Digits(Sextets(group)), Digits(Sextets(rest)), Padding(|rest|));
  }

  /** Nothing but white space. */
  predicate Blank(s: string) { forall c :: c in s ==> IsWhiteSpace(c as int) }

  /** Sections 4 and 5 of RFC 4648 differ in the last two characters: plus is printed as a dash, and a slash as an
      underscore; both are read back as either. */
  lemma TwoAlphabets(s: string, i: nat)
    requires i < |s|
    ensures |UrlSafe(s)| == |s| == |FromUrlSafe(s)|
    ensures UrlSafe(s)[i] == match s[i] case '+' => '-' case '/' => '_' case c => c
    ensures FromUrlSafe(s)[i] == match s[i] case '-' => '+' case '_' => '/' case c => c
  {
  }

  /** The printed form is the first 22 digits of the encoding, in the second alphabet. */
  lemma PrintedDigitByDigit(g: Guid, i: nat)
    requires |g| == 16 && Create(g).Ok? && i < 22
    ensures |Create(g).shortGuid.value| == 22 && |ToBase64(g)| == 24 && Create(g).shortGuid.guid == g
    ensures Create(g).shortGuid.value[i] == match ToBase64(g)[i] case '+' => '-' case '/' => '_' case c => c
  {
    ShortLength(g);
    TwoAlphabets(ToBase64(g)[..22], i);
  }

  /** A letter, a digit, or one of the two pairs of characters for the last two digits. */
  predicate IsEitherDigit(c: char) {
    'A' <= c <= 'Z' || 'a' <= c <= 'z' || '0' <= c <= '9' || c == '+' || c == '/' || c == '-' || c == '_'
  }

  lemma EitherDigits(s: string)
    ensures AllDigits(FromUrlSafe(s)) <==> AllEitherDigits(s)
  {
    forall i | 0 <= i < |s| ensures InAlphabet(FromUrlSafe(s)[i]) <==> IsEitherDigit(s[i]) {}
  }

  predicate AllEitherDigits(s: string) { forall i :: 0 <= i < |s| ==> IsEitherDigit(s[i]) }

  /** What parsing answers: an argument error to a blank text, a format error to any other that is not 22 characters long;
      to 22 digits of either alphabet the Guid they stand for, or an argument error if that is the empty one; and to any
      other 22 characters one of two errors. */
  lemma AnswersExactly(s: string)
    ensures Blank(s) ==> Parse(s) == Err(ArgumentNull)
    ensures !Blank(s) && |s| != 22 ==> Parse(s) == Err(BadFormat)
    ensures !Blank(s) && |s| == 22 && !AllEitherDigits(s) ==> Parse(s) == Err(BadFormat) || Parse(s) == Err(BadByteCount)
    ensures |s| == 22 && AllEitherDigits(s) ==> AllDigits(FromUrlSafe(s)) && AnswersWith(Parse(s), ShortBytes(FromUrlSafe(s)))
  {
    EitherDigits(s);
    if |s| == 22 {
      DecodesToSixteenExactly(FromUrlSafe(s));
      if AllDigits(FromUrlSafe(s)) {
        ParseDigits(s);
        Created(ShortBytes(FromUrlSafe(s)));
      }
    }
  }

  lemma Created(g: Guid)
    requires |g| == 16
    ensures AnswersWith(Create(g), g)
  {
    if forall i :: 0 <= i < |g| ==> g[i] == 0 {
      forall b | b in g ensures b == 0 { var i :| 0 <= i < |g| && g[i] == b; }
    } else {
      var i :| 0 <= i < |g| && g[i] != 0;
      assert g[i] in g;
    }
  }

  predicate AnswersWith(r: Result, g: Guid) {
    if forall i :: 0 <= i < |g| ==> g[i] == 0 then r == Err(ArgumentNull) else r.Ok? && r.shortGuid.guid == g
  }

  /** A wrong number of bytes: the digits left without spaces, tabs, carriage returns and line feeds make whole bytes, just
      not sixteen of them; anything else that is no digit is a format error. */
  lemma WrongByteCountExactly(s: string)
    requires !Blank(s) && |s| == 22
    ensures var t := WithoutSpaces(FromUrlSafe(s));
      Parse(s) == Err(BadByteCount) <==> |t| < 22 && |t| % 4 == 2 && forall i :: 0 <= i < |t| ==> InAlphabet(t[i])
  {
    var whole := FromUrlSafe(s);
    var t := WithoutSpaces(whole);
    SpacesConcat(whole, "==");
    NoSpaces("==");
    PaddedQuanta(t);
    SpacesShorten(whole);
    if |t| % 4 == 2 && AllDigits(t) {
      ByteCount(Values(t), |t| / 4, 2);
    }
  }

  /** Three bytes are four digits. */
  lemma OneGroup(a: Byte, b: Byte, c: Byte, digits: string)
    requires |digits| == 4 && digits[0] == Digit(a / 4) && digits[1] == Digit(a % 4 * 16 + b / 16)
    requires digits[2] == Digit(b % 16 * 4 + c / 64) && digits[3] == Digit(c % 64)
    ensures ToBase64([a, b, c]) == digits
  {
    assert [a, b, c][3..] == [];
    assert Sextets([a, b, c]) == [Sextet1(a), Sextet2(a, b), Sextet3(b, c), Sextet4(c)] + [];
  }

  lemma NextGroup(group: seq<Byte>, rest: seq<Byte>, digits: string, more: string)
    requires |group| == 3 && ToBase64(group) == digits && ToBase64(rest) == more
    ensures ToBase64(group + rest) == digits + more
  {
    GroupsConcat(group, rest);
  }

  /** "foob", "fooba" and "foobar". */
  lemma FourToSixBytes()
    ensures ToBase64([102, 111, 111] + [98]) == "Zm9v" + "Yg=="
    ensures ToBase64([102, 111, 111] + [98, 97]) == "Zm9v" + "YmE="
    ensures ToBase64([102, 111, 111] + [98, 97, 114]) == "Zm9v" + "YmFy"
  {
    OneGroup(102, 111, 111, "Zm9v");
    OneGroup(98, 97, 114, "YmFy");
    LastBytes();
    NextGroup([102, 111, 111], [98], "Zm9v", "Yg==");
    NextGroup([102, 111, 111], [98, 97], "Zm9v", "YmE=");
    NextGroup([102, 111, 111], [98, 97, 114], "Zm9v", "YmFy");
  }

  lemma LastBytes()
    ensures ToBase64([98]) == "Yg==" && ToBase64([98, 97]) == "YmE="
  {
    assert Sextets([98]) == [24, 32] && Sextets([98, 97]) == [24, 38, 4];
    assert Digits([24, 32]) == "Yg" && Digits([24, 38, 4]) == "YmE";
  }

  lemma TestGuidEncodes() returns (tail: string)
    ensures ToBase64([0xAE, 0x78, 0x2F] + ([0xE5, 0xFE, 0x32] + [0xA9])) == "rngv" + ("5f4y" + "qQ==")
  {
    OneGroup(0xAE, 0x78, 0x2F, "rngv");
    OneGroup(0xE5, 0xFE, 0x32, "5f4y");
    assert Sextets([0xA9]) == [42, 16] && Digits([42, 16]) == "qQ";
    assert ToBase64([0xA9]) == "qQ==";
    NextGroup([0xE5, 0xFE, 0x32], [0xA9], "5f4y", "qQ==");
    NextGroup([0xAE, 0x78, 0x2F], [0xE5, 0xFE, 0x32] + [0xA9], "rngv", "5f4y" + "qQ==");
    tail := "rngv" + ("5f4y" + "qQ==");
  }

  lemma TestGuidInBase64()
    ensures ToBase64([0xDA, 0xF3, 0x4F] + ([0xB4, 0xBD, 0x72] + ([0xCD, 0x40, 0x93]
              + ([0xAE, 0x78, 0x2F] + ([0xE5, 0xFE, 0x32] + [0xA9])))))
      == "2vNP" + ("tL1y" + ("zUCT" + ("rngv" + ("5f4y" + "qQ=="))))
  {
    var last := [0xAE, 0x78, 0x2F] + ([0xE5, 0xFE, 0x32] + [0xA9]);
    var tail := TestGuidEncodes();
    OneGroup(0xDA, 0xF3, 0x4F, "2vNP");
    OneGroup(0xB4, 0xBD, 0x72, "tL1y");
    OneGroup(0xCD, 0x40, 0x93, "zUCT");
    NextGroup([0xCD, 0x40, 0x93], last, "zUCT", "rngv" + ("5f4y" + "qQ=="));
    NextGroup([0xB4, 0xBD, 0x72], [0xCD, 0x40, 0x93] + last, "tL1y", "zUCT" + ("rngv" + ("5f4y" + "qQ==")));
    NextGroup([0xDA, 0xF3, 0x4F], [0xB4, 0xBD, 0x72] + ([0xCD, 0x40, 0x93] + last), "2vNP",
              "tL1y" + ("zUCT" + ("rngv" + ("5f4y" + "qQ=="))));
  }

  lemma TestGuidJoined()
    ensures "2vNP" + ("tL1y" + ("zUCT" + ("rngv" + ("5f4y" + "qQ==")))) == "2vNPtL1yzUCTrngv5f4yqQ" + "=="
  {
  }

  lemma TestGuidIsSafe()
    ensures UrlSafe("2vNPtL1yzUCTrngv5f4yqQ") == "2vNPtL1yzUCTrngv5f4yqQ"
  {
    SafeAlready("2vNPtL1yzUCTrngv5f4yqQ");
  }

  /** b44ff3da-72bd-40cd-93ae-782fe5fe32a9, the Guid of the original's tests. */
  lemma TestGuidPrints(g: Guid)
    requires g == [0xDA, 0xF3, 0x4F] + ([0xB4, 0xBD, 0x72] + ([0xCD, 0x40, 0x93]
                    + ([0xAE, 0x78, 0x2F] + ([0xE5, 0xFE, 0x32] + [0xA9]))))
    ensures |g| == 16 && Create(g) == Ok(ShortGuid(g, "2vNPtL1yzUCTrngv5f4yqQ"))
  {
    TestGuidInBase64();
    TestGuidJoined();
    TestGuidIsSafe();
    ShortAndSafe(g, "2vNPtL1yzUCTrngv5f4yqQ");
  }

  lemma SafeAlready(s: string)
    requires '/' !in s && '+' !in s
    ensures UrlSafe(s) == s
  {
    forall i | 0 <= i < |s| ensures UrlSafe(s)[i] == s[i] { assert s[i] in s; }
  }

  lemma ShortAndSafe(g: Guid, s: string)
    requires |g| == 16 && g[0] != 0 && ToBase64(g) == s + "==" && |s| == 22 && UrlSafe(s) == s
    ensures Create(g) == Ok(ShortGuid(g, s))
  {
    assert g[0] in g;
    assert (s + "==")[..22] == s;
  }
}
