/**
  The \u escapes that parse_string turns into UTF-8, against a decoder written from the
  byte ranges of section 4 of RFC 3629 and the surrogate pairs of RFC 8259, section 7.
*/
module JsonUtf8 {
  import opened Common
  import opened Json

  predicate Within(c: char, lo: nat, hi: nat) {
    lo <= c as int <= hi
  }

  predicate IsTail(c: char) {
    Within(c, 0x80, 0xBF)
  }

  /** What a byte behind the first contributes. */
  function Low(c: char): nat
    requires IsTail(c)
  {
    c as int - 0x80
  }

  /** The first code point of a text and what follows it; None if the bytes are no UTF-8. */
  function Decoded(s: string): Option<(nat, string)> {
    if |s| >= 1 && Within(s[0], 0x00, 0x7F) then Some((s[0] as int, s[1..]))
    else if |s| >= 2 && Within(s[0], 0xC2, 0xDF) && IsTail(s[1]) then
      Some(((s[0] as int - 0xC0) * 0x40 + Low(s[1]), s[2..]))
    else if |s| >= 3 && IsTail(s[1]) && IsTail(s[2]) && ThreeBytes(s[0], s[1]) then
      Some(((s[0] as int - 0xE0) * 0x1000 + Low(s[1]) * 0x40 + Low(s[2]), s[3..]))
    else if |s| >= 4 && IsTail(s[1]) && IsTail(s[2]) && IsTail(s[3]) && FourBytes(s[0], s[1]) then
      Some(((s[0] as int - 0xF0) * 0x4_0000 + Low(s[1]) * 0x1000 + Low(s[2]) * 0x40 + Low(s[3]), s[4..]))
    else None
  }

  predicate ThreeBytes(a: char, b: char) {
    || (Within(a, 0xE0, 0xE0) && Within(b, 0xA0, 0xBF))
    || (Within(a, 0xE1, 0xEC) && Within(b, 0x80, 0xBF))
    || (Within(a, 0xED, 0xED) && Within(b, 0x80, 0x9F))
    || (Within(a, 0xEE, 0xEF) && Within(b, 0x80, 0xBF))
  }

  predicate FourBytes(a: char, b: char) {
    || (Within(a, 0xF0, 0xF0) && Within(b, 0x90, 0xBF))
    || (Within(a, 0xF1, 0xF3) && Within(b, 0x80, 0xBF))
    || (Within(a, 0xF4, 0xF4) && Within(b, 0x80, 0x8F))
  }

  predicate IsSurrogate(uc: nat) {
    0xD800 <= uc <= 0xDFFF
  }

  /** The bytes written for a code point are read back as that code point, whatever follows; those that
      would stand for a surrogate are no UTF-8. */
  lemma Utf8Decodes(uc: nat, rest: string)
    requires 0 < uc < 0x11_0000
    ensures Decoded(Utf8(uc) + rest) == if IsSurrogate(uc) then None else Some((uc, rest))
  {
    var s := Utf8(uc);
    assert (s + rest)[|s|..] == rest;
    if uc < 0x800 {
    } else if uc < 0x1_0000 {
      ThreeParts(uc);
    } else {
      FourParts(uc);
    }
  }

  lemma ThreeParts(uc: nat)
    requires uc < 0x1_0000
    ensures uc == (uc / 0x1000) * 0x1000 + (uc / 0x40 % 0x40) * 0x40 + uc % 0x40
    ensures 0xD800 <= uc <= 0xDFFF <==> uc / 0x1000 == 13 && uc / 0x40 % 0x40 >= 0x20
    ensures uc >= 0x800 && uc / 0x1000 == 0 ==> uc / 0x40 % 0x40 >= 0x20
  {
    assert uc / 0x40 / 0x40 == uc / 0x1000;
  }

  lemma FourParts(uc: nat)
    requires 0x1_0000 <= uc < 0x11_0000
    ensures uc == (uc / 0x4_0000) * 0x4_0000 + (uc / 0x1000 % 0x40) * 0x1000 + (uc / 0x40 % 0x40) * 0x40 + uc % 0x40
    ensures uc / 0x4_0000 <= 4 && (uc / 0x4_0000 == 0 ==> uc / 0x1000 % 0x40 >= 0x10)
    ensures uc / 0x4_0000 == 4 ==> uc / 0x1000 % 0x40 <= 0x0F
  {
    assert uc / 0x40 / 0x40 == uc / 0x1000 && uc / 0x1000 / 0x40 == uc / 0x4_0000;
  }

  // ------------------------------------------------------------------- the digits

  /** The character c is the hexadecimal digit of value v, in either case. */
  predicate Shows(c: char, v: nat)
    requires v < 16
  {
    c == "0123456789abcdef"[v] || c == "0123456789ABCDEF"[v]
  }

  /** Four digits that write the number u. */
  predicate Writes(h: string, u: nat)
    requires u < 0x1_0000
  {
    |h| == 4 && Shows(h[0], u / 0x1000) && Shows(h[1], u / 0x100 % 0x10) && Shows(h[2], u / 0x10 % 0x10) && Shows(h[3], u % 0x10)
  }

  lemma ShownValue(c: char, v: nat)
    requires v < 16 && Shows(c, v)
    ensures HexValue(c) == v && c != '\0'
  {
  }

  lemma WrittenNumber(h: string, u: nat, rest: string)
    requires u < 0x1_0000 && Writes(h, u)
    ensures ParseHex4(h + rest) == u && NoNul(h)
  {
    ShownValue(h[0], u / 0x1000);
    ShownValue(h[1], u / 0x100 % 0x10);
    ShownValue(h[2], u / 0x10 % 0x10);
    ShownValue(h[3], u % 0x10);
    assert u / 0x10 / 0x10 == u / 0x100 && u / 0x100 / 0x10 == u / 0x1000;
  }

  /** Four digits for a code point of the basic plane stand for it. */
  lemma UnitDecodes(h: string, uc: nat, rest: string)
    requires 0 < uc < 0x1_0000 && !IsSurrogate(uc) && Writes(h, uc)
    ensures exists s :: Unicode(h + rest) == Some((s, 4)) && Decoded(s) == Some((uc, ""))
  {
    WrittenNumber(h, uc, rest);
    assert (h + rest)[..4] == h;
    Utf8Decodes(uc, "");
    assert Utf8(uc) + "" == Utf8(uc);
    assert Unicode(h + rest) == Some((Utf8(uc), 4));
  }

  lemma UnicodePair(t: string, hi: nat, lo: nat)
    requires |t| >= 10 && NoNul(t[..4]) && NoNul(t[..10]) && ParseHex4(t) == hi && 0xD800 <= hi <= 0xDBFF
    requires Begins(t[4..], "\\u") && ParseHex4(t[6..]) == lo && 0xDC00 <= lo <= 0xDFFF
    ensures Unicode(t) == Some((Utf8(0x1_0000 + (hi % 0x400) * 0x400 + lo % 0x400), 10))
  {
  }

  lemma PairText(h: string, l: string, rest: string) returns (t: string)
    requires |h| == 4 && |l| == 4 && NoNul(h) && NoNul(l)
    ensures t == h + "\\u" + l + rest
    ensures |t| >= 10 && t[..4] == h && t[6..][..4] == l && NoNul(t[..4]) && NoNul(t[..10]) && Begins(t[4..], "\\u")
  {
    t := h + "\\u" + l + rest;
    assert t[4..] == "\\u" + (l + rest);
    assert t[..10] == h + "\\u" + l;
  }

  lemma WrittenAt(t: string, h: string, u: nat)
    requires u < 0x1_0000 && Writes(h, u) && |t| >= 4 && t[..4] == h
    ensures ParseHex4(t) == u && NoNul(h)
  {
    WrittenNumber(h, u, t[4..]);
    assert t == h + t[4..];
  }

  lemma PairStands(h: string, l: string, uc: nat, hi: nat, lo: nat, rest: string)
    requires 0x1_0000 <= uc < 0x11_0000
    requires hi == 0xD800 + (uc - 0x1_0000) / 0x400 && lo == 0xDC00 + (uc - 0x1_0000) % 0x400
    requires hi < 0x1_0000 && lo < 0x1_0000 && Writes(h, hi) && Writes(l, lo)
    ensures Unicode(h + "\\u" + l + rest) == Some((Utf8(uc), 10))
  {
    WrittenAt(h, h, hi);
    WrittenAt(l, l, lo);
    PairFormula(uc);
    var t := PairText(h, l, rest);
    WrittenAt(t, h, hi);
    WrittenAt(t[6..], l, lo);
    UnicodePair(t, hi, lo);
  }

  /** Two surrogates, joined by another \u, stand for the code point behind the basic plane. */
  lemma PairDecodes(h: string, l: string, uc: nat, rest: string)
    requires 0x1_0000 <= uc < 0x11_0000
    requires Writes(h, 0xD800 + (uc - 0x1_0000) / 0x400) && Writes(l, 0xDC00 + (uc - 0x1_0000) % 0x400)
    ensures exists s :: Unicode(h + "\\u" + l + rest) == Some((s, 10)) && Decoded(s) == Some((uc, ""))
  {
    PairStands(h, l, uc, 0xD800 + (uc - 0x1_0000) / 0x400, 0xDC00 + (uc - 0x1_0000) % 0x400, rest);
    Utf8Decodes(uc, "");
    assert Utf8(uc) + "" == Utf8(uc);
  }

  lemma PairFormula(uc: nat)
    requires 0x1_0000 <= uc < 0x11_0000
    ensures var hi, lo := 0xD800 + (uc - 0x1_0000) / 0x400, 0xDC00 + (uc - 0x1_0000) % 0x400;
      && 0xD800 <= hi <= 0xDBFF && 0xDC00 <= lo <= 0xDFFF
      && 0x1_0000 + (hi % 0x400) * 0x400 + lo % 0x400 == uc
  {
  }

  /** Nothing stands for the number 0, for a second surrogate alone, or for a first one that no second
      follows. */
  lemma LoneSurrogate(h: string, u: nat, rest: string)
    requires u < 0x1_0000 && Writes(h, u) && (u == 0 || IsSurrogate(u)) && !Begins(rest, "\\u")
    ensures Unicode(h + rest) == Some(("", 4))
  {
    WrittenNumber(h, u, rest);
    assert (h + rest)[..4] == h && (h + rest)[4..] == rest;
  }
}
