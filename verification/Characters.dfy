/** Bytes, and the white space of UTF-16 code units. */
module Characters {
  type Byte = b: int | 0 <= b < 256

  /** `char.IsWhiteSpace`, of a code unit. */
  predicate IsWhiteSpace(u: int) {
    9 <= u <= 13 || u == 0x20 || u == 0x85 || u == 0xA0 || u == 0x1680 || 0x2000 <= u <= 0x200A
    || u == 0x2028 || u == 0x2029 || u == 0x202F || u == 0x205F || u == 0x3000
  }

  /** The 25 code points of white space, one by one. */
  lemma WhiteSpaceExactly(u: int)
    ensures IsWhiteSpace(u) <==>
      u in {0x0009, 0x000A, 0x000B, 0x000C, 0x000D, 0x0020, 0x0085, 0x00A0, 0x1680, 0x2000, 0x2001, 0x2002, 0x2003,
            0x2004, 0x2005, 0x2006, 0x2007, 0x2008, 0x2009, 0x200A, 0x2028, 0x2029, 0x202F, 0x205F, 0x3000}
  {
  }
}
