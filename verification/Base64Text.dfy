/**
  The text that base64_encode writes, against section 5.2 of RFC 1341: the bytes as 24-bit
  groups, each group as four letters of the alphabet, the last one padded, in lines.
*/
module Base64Text {
  import opened Base64

  /** The alphabet: its corners, and that letters and digits follow each other in between. */
  lemma Alphabet()
    ensures Letter(0) == 'A' as int && Letter(25) == 'Z' as int && Letter(26) == 'a' as int && Letter(51) == 'z' as int
    ensures Letter(52) == '0' as int && Letter(61) == '9' as int && Letter(62) == '+' as int && Letter(63) == '/' as int
    ensures forall v: nat :: v < 61 && v != 25 && v != 51 ==> Letter(v + 1) == Letter(v) + 1
  {
  }

  /** The 24 bits of a group, zeros taking the place of missing bytes. */
  function Word(g: seq<Byte>): nat
    requires 1 <= |g| <= 3
  {
    g[0] as int * 0x1_0000 + (if |g| > 1 then g[1] as int * 0x100 else 0) + if |g| > 2 then g[2] as int else 0
  }

  /** Four letters for a group of bytes, padding taking the place of letters that would only hold zeros
      of missing bytes. */
  predicate Encodes(q: seq<Byte>, g: seq<Byte>)
    requires 1 <= |g| <= 3
  {
    && |q| == 4
    && q[0] == Letter(Word(g) / 0x4_0000 % 64) && q[1] == Letter(Word(g) / 0x1000 % 64)
    && q[2] == (if |g| > 1 then Letter(Word(g) / 0x40 % 64) else '=' as int)
    && q[3] == (if |g| > 2 then Letter(Word(g) % 64) else '=' as int)
  }

  lemma Parts(w: nat, p: nat, q: nat, r: nat, s: nat)
    requires p < 64 && q < 64 && r < 64 && s < 64
    requires w == p * 0x4_0000 + q * 0x1000 + r * 0x40 + s
    ensures w / 0x4_0000 == p && w / 0x1000 == p * 64 + q && w / 0x40 == p * 0x1000 + q * 64 + r && w % 64 == s
  {
  }

  lemma Low(p: nat, q: nat)
    requires q < 64
    ensures (p * 64 + q) % 64 == q
  {
  }

  /** Three bytes and four times six bits make up the same 24 bits. */
  lemma SixBits(a: nat, b: nat, c: nat, w: nat)
    requires a < 256 && b < 256 && c < 256 && w == a * 0x1_0000 + b * 0x100 + c
    ensures w / 0x4_0000 % 64 == a / 4 && w / 0x1000 % 64 == a % 4 * 16 + b / 16
    ensures w / 0x40 % 64 == b % 16 * 4 + c / 64 && w % 64 == c % 64
  {
    var p, q, r, s := a / 4, a % 4 * 16 + b / 16, b % 16 * 4 + c / 64, c % 64;
    Parts(w, p, q, r, s);
    Low(p, q);
    Low(p * 64 + q, r);
  }

  lemma QuadEncodes(a: Byte, b: Byte, c: Byte)
    ensures Encodes(Quad(a, b, c), [a, b, c])
  {
    SixBits(a, b, c, Word([a, b, c]));
  }

  lemma LastQuadEncodes(g: seq<Byte>)
    requires 1 <= |g| <= 2
    ensures Encodes(LastQuad(g), g)
  {
    SixBits(g[0], if |g| > 1 then g[1] else 0, 0, Word(g));
  }

  /** Group i of the bytes: three of them, or what is left. */
  function Group(src: seq<Byte>, i: nat): (g: seq<Byte>)
    requires 3 * i < |src|
    ensures 1 <= |g| <= 3
  {
    if 3 * i + 3 <= |src| then src[3 * i..3 * i + 3] else src[3 * i..]
  }

  lemma FirstGroup(src: seq<Byte>)
    requires |src| > 0
    ensures |Quads(src)| >= 4 && Encodes(Quads(src)[..4], Group(src, 0))
  {
    if |src| >= 3 {
      QuadEncodes(src[0], src[1], src[2]);
      assert Quads(src)[..4] == Quad(src[0], src[1], src[2]) && src[0..3] == [src[0], src[1], src[2]];
    } else {
      LastQuadEncodes(src);
      assert Quads(src)[..4] == LastQuad(src) && src[0..] == src;
    }
  }

  lemma Slice(q: seq<Byte>, r: seq<Byte>, i: nat)
    requires |q| == 4 && i > 0 && 4 * i <= |r|
    ensures (q + r)[4 * i..4 * i + 4] == r[4 * (i - 1)..4 * (i - 1) + 4]
  {
    var a := 4 * (i - 1);
    assert 4 * i == a + 4;
    assert (q + r)[a + 4..a + 8] == r[a..a + 4];
  }

  lemma SliceGroup(src: seq<Byte>, i: nat)
    requires i > 0 && 3 * i < |src|
    ensures 3 * (i - 1) < |src[3..]| && Group(src, i) == Group(src[3..], i - 1)
  {
    var a := 3 * (i - 1);
    assert 3 * i == a + 3;
    if 3 * i + 3 <= |src| {
      assert src[3..][a..a + 3] == src[a + 3..a + 6];
    } else {
      assert src[3..][a..] == src[a + 3..];
    }
  }

  lemma NextGroup(src: seq<Byte>, i: nat)
    requires i > 0 && 3 * i < |src| && 4 * i <= |Quads(src[3..])|
    ensures 3 * (i - 1) < |src[3..]| && Group(src, i) == Group(src[3..], i - 1)
    ensures 4 * i + 4 <= |Quads(src)| && Quads(src)[4 * i..4 * i + 4] == Quads(src[3..])[4 * (i - 1)..4 * (i - 1) + 4]
  {
    SliceGroup(src, i);
    Slice(Quad(src[0], src[1], src[2]), Quads(src[3..]), i);
  }

  lemma {:induction false} QuadsEncode(src: seq<Byte>, i: nat)
    requires 3 * i < |src|
    ensures 4 * i + 4 <= |Quads(src)| && Encodes(Quads(src)[4 * i..4 * i + 4], Group(src, i))
    decreases |src|
  {
    if i == 0 {
      FirstGroup(src);
    } else {
      QuadsEncode(src[3..], i - 1);
      NextGroup(src, i);
    }
  }

  lemma {:induction false} QuadsSize(src: seq<Byte>)
    ensures |Quads(src)| == (|src| + 2) / 3 * 4
    decreases |src|
  {
    if |src| >= 3 { QuadsSize(src[3..]); }
  }

  /** Without its line feeds, the text is one group of four letters for each group of bytes. */
  lemma EncodeGroups(src: seq<Byte>, i: nat)
    requires 3 * i < |src|
    ensures var s := Symbols(Encode(src));
      |s| == (|src| + 2) / 3 * 4 && 4 * i + 4 <= |s| && Encodes(s[4 * i..4 * i + 4], Group(src, i))
  {
    SymbolsOfEncoded(src, 0);
    QuadsSize(src);
    QuadsEncode(src, i);
  }

  /** Position j of a text with `col` letters before it on the line holds a line feed exactly where it
      should. */
  predicate FeedsAt(t: seq<Byte>, col: nat, j: nat)
    requires j < |t|
  {
    t[j] == LF <==> (col + j + 1) % 73 == 0 || j + 1 == |t|
  }

  lemma FeedsInLine(q: seq<Byte>, rest: seq<Byte>, col: nat, j: nat)
    requires |q| == 4 && LF !in q && col + 4 < 72 && rest != [] && j < |q + rest|
    requires j >= 4 ==> FeedsAt(rest, col + 4, j - 4)
    ensures FeedsAt(q + rest, col, j)
  {
  }

  lemma FeedsAtEnd(q: seq<Byte>, rest: seq<Byte>, j: nat)
    requires |q| == 4 && LF !in q && j < |q + ([LF] + rest)|
    requires j >= 5 ==> FeedsAt(rest, 0, j - 5)
    ensures FeedsAt(q + ([LF] + rest), 68, j)
  {
    var t := q + ([LF] + rest);
    if j >= 5 {
      assert t[j] == rest[j - 5];
      assert 68 + j + 1 == (j - 5 + 1) + 73;
    }
  }

  lemma LettersOnly(g: seq<Byte>)
    requires 1 <= |g| <= 3
    ensures LF !in if |g| == 3 then Quad(g[0], g[1], g[2]) else LastQuad(g)
  {
  }

  lemma {:induction false} FeedsEverywhere(src: seq<Byte>, col: nat, j: nat)
    requires col < 72 && col % 4 == 0 && j < |EncodeFrom(src, col)|
    ensures FeedsAt(EncodeFrom(src, col), col, j)
    decreases |src|
  {
    if |src| >= 3 {
      LettersOnly(src[..3]);
      var q := Quad(src[0], src[1], src[2]);
      if col + 4 >= 72 {
        var rest := EncodeFrom(src[3..], 0);
        if j >= 5 { FeedsEverywhere(src[3..], 0, j - 5); }
        FeedsAtEnd(q, rest, j);
      } else {
        var rest := EncodeFrom(src[3..], col + 4);
        if j >= 4 { FeedsEverywhere(src[3..], col + 4, j - 4); }
        NotEmpty(src[3..], col + 4);
        FeedsInLine(q, rest, col, j);
      }
    } else if src != [] {
      LettersOnly(src);
      FeedsLast(LastQuad(src), col, j);
    }
  }

  lemma FeedsLast(q: seq<Byte>, col: nat, j: nat)
    requires |q| == 4 && LF !in q && col < 72 && col % 4 == 0 && j < 5
    ensures FeedsAt(q + [LF], col, j)
  {
  }

  lemma NotEmpty(src: seq<Byte>, col: nat)
    requires col > 0
    ensures EncodeFrom(src, col) != []
  {
  }

  /** A line feed follows every 72 letters and ends the text; there is no other. */
  lemma LineFeeds(src: seq<Byte>, j: nat)
    requires j < |Encode(src)|
    ensures Encode(src)[j] == LF <==> (j + 1) % 73 == 0 || j + 1 == |Encode(src)|
  {
    FeedsEverywhere(src, 0, j);
  }
}
