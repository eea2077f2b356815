/**
  Base64 as in base64.c (section 5.2 of RFC 1341): groups of three bytes become four
  letters, lines hold 72 letters and end with a line feed, also the last.
*/
module Base64 {
  import opened Common

  type Byte = b: int | 0 <= b < 256

  const PAD := '=' as int
  const LF := '\n' as int

  /** base64_table */
  function Letter(v: nat): (c: Byte)
    requires v < 64
    ensures c != PAD && c != LF
  {
    if v < 26 then 'A' as int + v
    else if v < 52 then 'a' as int + v - 26
    else if v < 62 then '0' as int + v - 52
    else if v == 62 then '+' as int
    else '/' as int
  }

  /** dtable: the value of a letter, 0 for padding, 0x80 for anything else */
  function Value(c: Byte): (v: nat)
    ensures v < 64 || v == 0x80
    ensures v < 64 && c != PAD ==> Letter(v) == c
  {
    if 'A' as int <= c <= 'Z' as int then c - 'A' as int
    else if 'a' as int <= c <= 'z' as int then c - 'a' as int + 26
    else if '0' as int <= c <= '9' as int then c - '0' as int + 52
    else if c == '+' as int then 62
    else if c == '/' as int then 63
    else if c == PAD then 0
    else 0x80
  }

  lemma LetterValue(v: nat)
    requires v < 64
    ensures Value(Letter(v)) == v
  {
  }

  // --------------------------------------------------------------------- encoding

  function Quad(a: Byte, b: Byte, c: Byte): (q: seq<Byte>)
    ensures |q| == 4
  {
    [Letter(a / 4), Letter(a % 4 * 16 + b / 16), Letter(b % 16 * 4 + c / 64), Letter(c % 64)]
  }

  /** The last group, of one or two bytes. */
  function LastQuad(src: seq<Byte>): (q: seq<Byte>)
    requires 1 <= |src| <= 2
    ensures |q| == 4
  {
    if |src| == 1 then [Letter(src[0] / 4), Letter(src[0] % 4 * 16), PAD, PAD]
    else [Letter(src[0] / 4), Letter(src[0] % 4 * 16 + src[1] / 16), Letter(src[1] % 16 * 4), PAD]
  }

  /** The text of src, the current line having `col` letters already. */
  function EncodeFrom(src: seq<Byte>, col: nat): seq<Byte>
    decreases |src|
  {
    if |src| >= 3 then
      Quad(src[0], src[1], src[2])
      + if col + 4 >= 72 then [LF] + EncodeFrom(src[3..], 0) else EncodeFrom(src[3..], col + 4)
    else if src == [] then (if col > 0 then [LF] else [])
    else LastQuad(src) + [LF]
  }

  function Encode(src: seq<Byte>): seq<Byte> {
    EncodeFrom(src, 0)
  }

  // --------------------------------------------------------------------- decoding

  /** The letters and padding of a text; everything else is skipped. */
  function Symbols(text: seq<Byte>): (s: seq<Byte>)
    ensures forall i :: 0 <= i < |s| ==> Value(s[i]) != 0x80
    decreases |text|
  {
    if text == [] then []
    else
      var last := text[|text| - 1];
      Symbols(text[..|text| - 1]) + if Value(last) != 0x80 then [last] else []
  }

  /** Four symbols give three bytes, cut off to eight bits. */
  function Triple(v0: nat, v1: nat, v2: nat, v3: nat): seq<Byte> {
    [(v0 * 4 + v1 / 16) % 256, (v1 * 16 + v2 / 4) % 256, (v2 * 64 + v3) % 256]
  }

  function Triples(s: seq<Byte>): (r: seq<Byte>)
    ensures |r| == |s| / 4 * 3
    decreases |s|
  {
    if |s| < 4 then []
    else
      var n := |s|;
      Triples(s[..n - 4]) + Triple(Value(s[n - 4]), Value(s[n - 3]), Value(s[n - 2]), Value(s[n - 1]))
  }

  /** Padding in the last group takes one or two bytes off. */
  function Trimmed(bytes: seq<Byte>, s: seq<Byte>): seq<Byte>
    requires |bytes| == |s| / 4 * 3
  {
    if |s| < 4 then bytes
    else if s[|s| - 2] == PAD then bytes[..|bytes| - 2]
    else if s[|s| - 1] == PAD then bytes[..|bytes| - 1]
    else bytes
  }

  /** base64_decode; None if the number of symbols is no multiple of four */
  function Decode(text: seq<Byte>): Option<seq<Byte>> {
    var s := Symbols(text);
    if |s| % 4 != 0 then None else Some(Trimmed(Triples(s), s))
  }

  // ------------------------------------------------------------------- round trip

  lemma {:induction false} SymbolsAppend(a: seq<Byte>, b: seq<Byte>)
    ensures Symbols(a + b) == Symbols(a) + Symbols(b)
    decreases |b|
  {
    if b == [] {
      assert a + b == a;
    } else {
      assert (a + b)[..|a + b| - 1] == a + b[..|b| - 1];
      SymbolsAppend(a, b[..|b| - 1]);
    }
  }

  lemma {:induction false} SymbolsAll(a: seq<Byte>)
    requires forall i :: 0 <= i < |a| ==> Value(a[i]) != 0x80
    ensures Symbols(a) == a
    decreases |a|
  {
    if a != [] {
      SymbolsAll(a[..|a| - 1]);
      assert a[..|a| - 1] + [a[|a| - 1]] == a;
    }
  }

  /** The symbols in the last four places make the last three bytes. */
  lemma TriplesLast(s: seq<Byte>, v: seq<Byte>)
    requires |v| == 4
    ensures Triples(s + v) == Triples(s) + Triple(Value(v[0]), Value(v[1]), Value(v[2]), Value(v[3]))
  {
    assert (s + v)[..|s + v| - 4] == s;
  }

  lemma TriplesStep(a: seq<Byte>, front: seq<Byte>, v: seq<Byte>)
    requires |v| == 4 && Triples(a + front) == Triples(a) + Triples(front)
    ensures Triples(a + (front + v)) == Triples(a) + Triples(front + v)
  {
    TriplesLast(a + front, v);
    TriplesLast(front, v);
    Regroup(a, front, v);
    Regroup(Triples(a), Triples(front), Triple(Value(v[0]), Value(v[1]), Value(v[2]), Value(v[3])));
  }

  lemma LastFour(b: seq<Byte>) returns (front: seq<Byte>, v: seq<Byte>)
    requires |b| >= 4
    ensures b == front + v && |v| == 4
  {
    front, v := b[..|b| - 4], b[|b| - 4..];
  }

  lemma {:induction false} TriplesAppend(a: seq<Byte>, b: seq<Byte>)
    requires |b| % 4 == 0
    ensures Triples(a + b) == Triples(a) + Triples(b)
    decreases |b|
  {
    if |b| < 4 {
      assert b == [] && a + b == a;
    } else {
      var front, v := LastFour(b);
      TriplesAppend(a, front);
      TriplesStep(a, front, v);
    }
  }

  /** The text without line feeds. */
  function Quads(src: seq<Byte>): (q: seq<Byte>)
    ensures |q| % 4 == 0
    decreases |src|
  {
    if |src| >= 3 then Quad(src[0], src[1], src[2]) + Quads(src[3..])
    else if src == [] then []
    else LastQuad(src)
  }

  lemma QuadSymbols(q: seq<Byte>, rest: seq<Byte>)
    requires forall i :: 0 <= i < |q| ==> Value(q[i]) != 0x80
    ensures Symbols(q + rest) == q + Symbols(rest)
  {
    SymbolsAppend(q, rest);
    SymbolsAll(q);
  }

  lemma LineFeedSkipped(rest: seq<Byte>)
    ensures Symbols([LF] + rest) == Symbols(rest)
  {
    SymbolsAppend([LF], rest);
    assert [LF][..0] == [];
    assert Symbols([LF]) == [];
  }

  predicate AllSymbols(q: seq<Byte>) {
    forall i :: 0 <= i < |q| ==> Value(q[i]) != 0x80
  }

  lemma LastQuadSymbols(src: seq<Byte>)
    requires 1 <= |src| <= 2
    ensures AllSymbols(LastQuad(src))
  {
    QuadValues(src[0], if |src| == 2 then src[1] else 0, 0);
    assert Value(PAD) == 0;
  }

  lemma QuadThenLineFeed(q: seq<Byte>, rest: seq<Byte>)
    requires AllSymbols(q)
    ensures Symbols(q + ([LF] + rest)) == q + Symbols(rest)
  {
    QuadSymbols(q, [LF] + rest);
    LineFeedSkipped(rest);
  }

  lemma SymbolsOfGroup(src: seq<Byte>, col: nat)
    requires |src| >= 3
    ensures Symbols(EncodeFrom(src, col))
      == Quad(src[0], src[1], src[2]) + Symbols(EncodeFrom(src[3..], if col + 4 >= 72 then 0 else col + 4))
  {
    var q := Quad(src[0], src[1], src[2]);
    QuadValues(src[0], src[1], src[2]);
    if col + 4 >= 72 { QuadThenLineFeed(q, EncodeFrom(src[3..], 0)); } else { QuadSymbols(q, EncodeFrom(src[3..], col + 4)); }
  }

  /** Line feeds are skipped, wherever they stand. */
  lemma {:induction false} SymbolsOfEncoded(src: seq<Byte>, col: nat)
    ensures Symbols(EncodeFrom(src, col)) == Quads(src)
    decreases |src|
  {
    if |src| >= 3 {
      var q := Quad(src[0], src[1], src[2]);
      QuadValues(src[0], src[1], src[2]);
      var next := if col + 4 >= 72 then 0 else col + 4;
      SymbolsOfEncoded(src[3..], next);
      SymbolsOfGroup(src, col);
    } else if src == [] {
      LineFeedSkipped([]);
      assert [LF] + [] == [LF];
    } else {
      LastQuadSymbols(src);
      QuadThenLineFeed(LastQuad(src), []);
      assert [LF] + [] == [LF] && LastQuad(src) + [] == LastQuad(src);
    }
  }

  lemma QuadValues(a: Byte, b: Byte, c: Byte)
    ensures var q := Quad(a, b, c);
      && Value(q[0]) == a / 4 && Value(q[1]) == a % 4 * 16 + b / 16 && Value(q[2]) == b % 16 * 4 + c / 64 && Value(q[3]) == c % 64
  {
    LetterValue(a / 4);
    LetterValue(a % 4 * 16 + b / 16);
    LetterValue(b % 16 * 4 + c / 64);
    LetterValue(c % 64);
  }

  // The three bytes in terms of the parts they are cut into.

  lemma FirstByte(h: nat, r: nat, y: nat)
    requires h < 64 && r < 4 && y < 16
    ensures (h * 4 + (r * 16 + y) / 16) % 256 == h * 4 + r
  {
    assert (r * 16 + y) / 16 == r;
  }

  lemma SecondByte(r: nat, y: nat, z: nat, w: nat)
    requires r < 4 && y < 16 && z < 16 && w < 4
    ensures ((r * 16 + y) * 16 + (z * 4 + w) / 4) % 256 == y * 16 + z
  {
    assert (z * 4 + w) / 4 == z;
    assert (r * 256 + (y * 16 + z)) % 256 == y * 16 + z;
  }

  lemma ThirdByte(z: nat, w: nat, x: nat)
    requires z < 16 && w < 4 && x < 64
    ensures ((z * 4 + w) * 64 + x) % 256 == w * 64 + x
  {
    assert (z * 256 + (w * 64 + x)) % 256 == w * 64 + x;
  }

  /** Four letters give the three bytes back. */
  lemma TripleOfQuad(a: Byte, b: Byte, c: Byte)
    ensures Triple(a / 4, a % 4 * 16 + b / 16, b % 16 * 4 + c / 64, c % 64) == [a, b, c]
  {
    FirstByte(a / 4, a % 4, b / 16);
    SecondByte(a % 4, b / 16, b % 16, c / 64);
    ThirdByte(b % 16, c / 64, c % 64);
  }

  /** The bytes of one group. */
  lemma TriplesOfQuad(q: seq<Byte>, a: Byte, b: Byte, c: Byte)
    requires |q| == 4
    requires Value(q[0]) == a / 4 && Value(q[1]) == a % 4 * 16 + b / 16
    requires Value(q[2]) == b % 16 * 4 + c / 64 && Value(q[3]) == c % 64
    ensures Triples(q) == [a, b, c]
  {
    TripleOfQuad(a, b, c);
    TriplesLast([], q);
    assert [] + q == q;
  }

  /** Decoding the groups and trimming gives the source. */
  lemma {:induction false} TriplesOfQuads(src: seq<Byte>)
    ensures Trimmed(Triples(Quads(src)), Quads(src)) == src
    decreases |src|
  {
    if |src| >= 3 {
      var front, rest := [src[0], src[1], src[2]], src[3..];
      var q, more := Quad(src[0], src[1], src[2]), Quads(rest);
      QuadValues(src[0], src[1], src[2]);
      TriplesOfQuad(q, src[0], src[1], src[2]);
      TriplesAppend(q, more);
      TriplesOfQuads(rest);
      assert src == front + rest;
      if more != [] {
        TrimFront(front, q, Triples(more), more);
      } else {
        NothingTrimmed(front, q);
        assert q + more == q && rest == [] && front + rest == front;
      }
    } else if src != [] {
      TriplesOfLast(src);
    }
  }

  lemma NothingTrimmed(front: seq<Byte>, q: seq<Byte>)
    requires |front| == 3 && |q| == 4 && q[2] != PAD && q[3] != PAD
    ensures Trimmed(front, q) == front
  {
  }

  /** The last, padded group. */
  lemma TriplesOfLast(src: seq<Byte>)
    requires 1 <= |src| <= 2
    ensures Trimmed(Triples(LastQuad(src)), LastQuad(src)) == src
  {
    var q := LastQuad(src);
    var a, b := src[0], if |src| == 2 then src[1] else 0;
    QuadValues(a, b, 0);
    assert Value(PAD) == 0;
    TriplesOfQuad(q, a, b, 0);
  }

  lemma TrimFront(front: seq<Byte>, q: seq<Byte>, bytes: seq<Byte>, s: seq<Byte>)
    requires |front| == 3 && |q| == 4 && |s| >= 4 && |bytes| == |s| / 4 * 3
    ensures Trimmed(front + bytes, q + s) == front + Trimmed(bytes, s)
  {
  }

  /** Decoding what was encoded gives the source back. */
  lemma RoundTrip(src: seq<Byte>)
    ensures Decode(Encode(src)) == Some(src)
  {
    SymbolsOfEncoded(src, 0);
    TriplesOfQuads(src);
  }

  // ------------------------------------------------------------------------ sizes

  /** The size base64_encode allocates. */
  function Allocated(n: nat): nat {
    var o := n * 4 / 3 + 4;
    o + o / 72 + 1
  }

  function Groups(n: nat): nat {
    (n + 2) / 3
  }

  /** Four letters a group, and a line feed behind every 18 groups and behind the rest. */
  lemma {:induction false} EncodedSize(src: seq<Byte>, c: nat)
    requires c < 18
    ensures |EncodeFrom(src, 4 * c)| == 4 * Groups(|src|) + (Groups(|src|) + c + 17) / 18
    decreases |src|
  {
    if |src| >= 3 {
      assert Groups(|src|) == 1 + Groups(|src[3..]|);
      if c == 17 { EncodedSize(src[3..], 0); } else { EncodedSize(src[3..], c + 1); }
    }
  }

  /** The text and its NUL always fit, and use up the buffer exactly if one byte is left over
      from the groups of three and the last line is not full. */
  lemma SizeCovers(src: seq<Byte>)
    ensures |Encode(src)| + 1 <= Allocated(|src|)
    ensures |Encode(src)| + 1 == Allocated(|src|) <==> |src| % 3 == 1 && Groups(|src|) % 18 != 0
  {
    EncodedSize(src, 0);
    SizeOf(|src|);
  }

  lemma SizeOf(n: nat)
    ensures var q, r := Groups(n), Groups(n) % 18;
      && Allocated(n) ==
         (if n % 3 == 0 then 4 * q + 5 + (if r == 17 then q / 18 + 1 else q / 18)
          else if n % 3 == 1 then 4 * q + 2 + q / 18 else 4 * q + 3 + q / 18)
      && (q + 17) / 18 == if r == 0 then q / 18 else q / 18 + 1
  {
    var q := Groups(n);
    var f, r := q / 18, q % 18;
    By18(q + 17, if r == 0 then f else f + 1);
    if n % 3 == 0 {
      By3(n * 4, 4 * q);
      By72(4 * q + 4, if r == 17 then f + 1 else f);
    } else if n % 3 == 1 {
      By3(n * 4, 4 * q - 3);
      By72(4 * q + 1, f);
    } else {
      By3(n * 4, 4 * q - 2);
      By72(4 * q + 2, f);
    }
  }

  lemma By3(x: nat, k: int)
    requires 3 * k <= x < 3 * k + 3
    ensures x / 3 == k
  {
  }

  lemma By18(x: nat, k: int)
    requires 18 * k <= x < 18 * k + 18
    ensures x / 18 == k
  {
  }

  lemma By72(x: nat, k: int)
    requires 72 * k <= x < 72 * k + 72
    ensures x / 72 == k
  {
  }

  // ---------------------------------------------------------------------- methods

  /** The first characters of out are s. */
  ghost predicate Has(out: array<Byte>, s: seq<Byte>)
    reads out
  {
    |s| <= out.Length && out[..|s|] == s
  }

  method PutFour(out: array<Byte>, pos: nat, q: seq<Byte>, ghost done: seq<Byte>)
    requires |q| == 4 && Has(out, done) && pos == |done| && pos + 4 <= out.Length
    modifies out
    ensures Has(out, done + q)
  {
    out[pos], out[pos + 1], out[pos + 2], out[pos + 3] := q[0], q[1], q[2], q[3];
  }

  method PutOne(out: array<Byte>, pos: nat, c: Byte, ghost done: seq<Byte>)
    requires HasAt(out, pos, done) && pos < out.Length
    modifies out
    ensures Has(out, done + [c])
  {
    out[pos] := c;
  }

  /** base64_encode: out holds the text and a NUL */
  method EncodeBuffer(src: seq<Byte>) returns (out: array<Byte>, outLen: nat)
    ensures Has(out, Encode(src) + [0]) && outLen == |Encode(src)| && out.Length == Allocated(|src|)
    ensures fresh(out)
  {
    SizeCovers(src);
    out := new Byte[Allocated(|src|)](_ => 0);
    var pos: nat, i: nat, col: nat := 0, 0, 0;
    ghost var done: seq<Byte> := [];
    assert src[0..] == src && [] + Encode(src) == Encode(src);
    while |src| - i >= 3
      invariant i <= |src| && HasAt(out, pos, done) && fresh(out) && out.Length == Allocated(|src|)
      invariant done + EncodeFrom(src[i..], col) == Encode(src)
      decreases |src| - i
    {
      EncodeStep(done, src[i..], col);
      assert src[i..][3..] == src[i + 3..];
      pos, col, done := PutGroup(out, pos, col, src[i], src[i + 1], src[i + 2], done);
      i := i + 3;
    }
    pos := PutEnd(out, pos, col, src[i..], done);
    outLen := pos;
  }

  /** One group, and a line feed if the line is full. */
  method PutGroup(out: array<Byte>, pos: nat, col: nat, a: Byte, b: Byte, c: Byte, ghost done: seq<Byte>)
    returns (pos': nat, col': nat, ghost done': seq<Byte>)
    requires HasAt(out, pos, done) && pos + 5 <= out.Length
    modifies out
    ensures HasAt(out, pos', done')
    ensures if col + 4 >= 72 then done' == done + Quad(a, b, c) + [LF] && col' == 0 else done' == done + Quad(a, b, c) && col' == col + 4
  {
    PutFour(out, pos, Quad(a, b, c), done);
    pos', col', done' := pos + 4, col + 4, done + Quad(a, b, c);
    if col' >= 72 {
      PutOne(out, pos', LF, done');
      pos', col', done' := pos' + 1, 0, done' + [LF];
    }
  }

  /** The last group, the last line feed and the NUL. */
  method PutEnd(out: array<Byte>, at: nat, col: nat, rest: seq<Byte>, ghost done: seq<Byte>) returns (pos: nat)
    requires |rest| < 3 && HasAt(out, at, done) && at + |EncodeFrom(rest, col)| < out.Length
    modifies out
    ensures Has(out, done + EncodeFrom(rest, col) + [0]) && pos == at + |EncodeFrom(rest, col)|
  {
    pos := at;
    var len := col;
    ghost var d := done;
    if rest != [] {
      assert done + (LastQuad(rest) + [LF]) == done + LastQuad(rest) + [LF];
      PutFour(out, pos, LastQuad(rest), d);
      pos, d := pos + 4, d + LastQuad(rest);
      len := len + 4;
    }
    if len > 0 {
      PutOne(out, pos, LF, d);
      pos, d := pos + 1, d + [LF];
    }
    assert d == done + EncodeFrom(rest, col);
    PutOne(out, pos, 0, d);
  }

  lemma EncodeStep(done: seq<Byte>, src: seq<Byte>, col: nat)
    requires |src| >= 3
    ensures var q := Quad(src[0], src[1], src[2]);
      done + EncodeFrom(src, col)
      == if col + 4 >= 72 then (done + q + [LF]) + EncodeFrom(src[3..], 0) else (done + q) + EncodeFrom(src[3..], col + 4)
  {
    var q := Quad(src[0], src[1], src[2]);
    if col + 4 >= 72 {
      Regroup(done, q, [LF] + EncodeFrom(src[3..], 0));
      Regroup(done + q, [LF], EncodeFrom(src[3..], 0));
    } else {
      Regroup(done, q, EncodeFrom(src[3..], col + 4));
    }
  }

  lemma Regroup(a: seq<Byte>, b: seq<Byte>, c: seq<Byte>)
    ensures a + (b + c) == (a + b) + c
  {
  }

  /** The table of base64_decode. */
  method DecodeTable() returns (table: seq<nat>)
    ensures |table| == 256 && forall c: Byte :: table[c] == Value(c)
  {
    var dtable := new nat[256](_ => 0x80);
    var i := 0;
    while i < 64
      invariant 0 <= i <= 64 && dtable.Length == 256 && fresh(dtable)
      invariant forall c: Byte :: dtable[c] == if c != PAD && Value(c) < i then Value(c) else 0x80
    {
      LetterValue(i);
      dtable[Letter(i)] := i;
      i := i + 1;
    }
    dtable[PAD] := 0;
    table := dtable[..];
  }

  lemma SymbolsNext(text: seq<Byte>, i: nat)
    requires i < |text|
    ensures Symbols(text[..i + 1]) == Symbols(text[..i]) + if Value(text[i]) != 0x80 then [text[i]] else []
  {
    assert text[..i + 1][..i] == text[..i];
  }

  /** The first loop of base64_decode. */
  method CountSymbols(text: seq<Byte>, dtable: seq<nat>) returns (count: nat)
    requires |dtable| == 256 && forall c: Byte :: dtable[c] == Value(c)
    ensures count == |Symbols(text)|
  {
    count := 0;
    var i := 0;
    while i < |text|
      invariant 0 <= i <= |text| && count == |Symbols(text[..i])|
    {
      SymbolsNext(text, i);
      if dtable[text[i]] != 0x80 {
        count := count + 1;
      }
      i := i + 1;
    }
    assert text[..i] == text;
  }

  /** The last n symbols of s are in the first places of `quad`, the ones of the group before in
      the others. */
  predicate InQuad(quad: seq<Byte>, s: seq<Byte>, n: nat) {
    && |quad| == 4 && n < 4 && n <= |s|
    && (forall k :: 0 <= k < n ==> quad[k] == s[|s| - n + k])
    && (|s| - n >= 4 ==> forall k :: n <= k < 4 ==> quad[k] == s[|s| - n - 4 + k])
  }

  lemma QuadNext(quad: seq<Byte>, s: seq<Byte>, n: nat, c: Byte)
    requires InQuad(quad, s, n) && n < 3
    ensures InQuad(quad[n := c], s + [c], n + 1) && (s + [c])[..|s + [c]| - (n + 1)] == s[..|s| - n]
  {
  }

  lemma QuadFull(quad: seq<Byte>, s: seq<Byte>, c: Byte)
    requires InQuad(quad, s, 3)
    ensures s + [c] == s[..|s| - 3] + quad[3 := c]
    ensures InQuad(quad[3 := c], s + [c], 0) && (s + [c])[..|s + [c]|] == s + [c]
  {
  }

  /** The state of the second loop: s has been read, of which n symbols wait in `quad`. */
  ghost predicate Decoding(out: array<Byte>, quad: array<Byte>, s: seq<Byte>, n: nat, pos: nat)
    reads out, quad
  {
    out != quad && InQuad(quad[..], s, n) && (|s| - n) % 4 == 0 && HasAt(out, pos, Triples(s[..|s| - n]))
  }

  ghost predicate HasAt(out: array<Byte>, pos: nat, done: seq<Byte>)
    reads out
  {
    Has(out, done) && pos == |done|
  }

  /** One more symbol. */
  method TakeSymbol(out: array<Byte>, quad: array<Byte>, c: Byte, n: nat, pos: nat, ghost s: seq<Byte>) returns (n': nat, pos': nat)
    requires Decoding(out, quad, s, n, pos) && |s| < out.Length
    modifies out, quad
    ensures Decoding(out, quad, s + [c], n', pos')
  {
    if n == 3 {
      pos' := FillQuad(out, quad, c, pos, s);
      n' := 0;
    } else {
      StoreSymbol(out, quad, c, n, pos, s);
      n', pos' := n + 1, pos;
    }
  }

  method StoreSymbol(out: array<Byte>, quad: array<Byte>, c: Byte, n: nat, pos: nat, ghost s: seq<Byte>)
    requires Decoding(out, quad, s, n, pos) && n < 3
    modifies quad
    ensures Decoding(out, quad, s + [c], n + 1, pos)
  {
    QuadNext(quad[..], s, n, c);
    ghost var was := quad[..];
    quad[n] := c;
    assert quad[..] == was[n := c];
  }

  method FillQuad(out: array<Byte>, quad: array<Byte>, c: Byte, pos: nat, ghost s: seq<Byte>) returns (pos': nat)
    requires Decoding(out, quad, s, 3, pos) && |s| < out.Length
    modifies out, quad
    ensures Decoding(out, quad, s + [c], 0, pos')
  {
    QuadFull(quad[..], s, c);
    ghost var was := quad[..];
    quad[3] := c;
    assert quad[..] == was[3 := c];
    TakeQuad(out, quad, pos, s[..|s| - 3]);
    pos' := pos + 3;
  }

  /** Four symbols have come together. */
  method TakeQuad(out: array<Byte>, quad: array<Byte>, pos: nat, ghost front: seq<Byte>)
    requires out != quad && quad.Length == 4 && HasAt(out, pos, Triples(front)) && |front| + 4 <= out.Length
    modifies out
    ensures HasAt(out, pos + 3, Triples(front + quad[..]))
  {
    TriplesLast(front, quad[..]);
    PutThree(out, pos, quad[0], quad[1], quad[2], quad[3], Triples(front));
  }

  /** base64_decode */
  method DecodeBuffer(text: seq<Byte>) returns (r: Option<seq<Byte>>)
    ensures r == Decode(text)
  {
    var dtable := DecodeTable();
    var count := CountSymbols(text, dtable);
    if count % 4 != 0 {
      return None;
    }
    var out := new Byte[count](_ => 0);
    var quad := new Byte[4](_ => 0);
    var pos: nat, n: nat, i: nat := 0, 0, 0;
    ghost var s: seq<Byte> := [];
    while i < |text|
      invariant i <= |text| && s == Symbols(text[..i]) && Decoding(out, quad, s, n, pos)
      invariant out.Length == |Symbols(text)| && fresh(out) && fresh(quad)
      decreases |text| - i
    {
      SymbolsNext(text, i);
      SymbolsPrefix(text, i + 1);
      if dtable[text[i]] != 0x80 {
        n, pos := TakeSymbol(out, quad, text[i], n, pos, s);
        s := s + [text[i]];
      }
      i := i + 1;
    }
    assert text[..i] == text;
    r := Some(Finish(out, quad, s, n, pos));
  }

  /** The last two steps: cut off what stands for padding. */
  function Finish(out: array<Byte>, quad: array<Byte>, ghost s: seq<Byte>, n: nat, pos: nat): (r: seq<Byte>)
    requires Decoding(out, quad, s, n, pos) && |s| % 4 == 0
    reads out, quad
    ensures r == Trimmed(Triples(s), s)
  {
    assert n == 0 && s[..|s|] == s;
    assert out[..pos] == Triples(s);
    if pos > 0 then
      assert quad[2] == s[|s| - 2] && quad[3] == s[|s| - 1];
      if quad[2] == PAD then out[..pos - 2] else if quad[3] == PAD then out[..pos - 1] else out[..pos]
    else out[..pos]
  }

  lemma {:induction false} SymbolsPrefix(text: seq<Byte>, i: nat)
    requires i <= |text|
    ensures |Symbols(text[..i])| <= |Symbols(text)|
    decreases |text| - i
  {
    if i == |text| {
      assert text[..i] == text;
    } else {
      SymbolsNext(text, i);
      SymbolsPrefix(text, i + 1);
    }
  }

  method PutThree(out: array<Byte>, pos: nat, c0: Byte, c1: Byte, c2: Byte, c3: Byte, ghost done: seq<Byte>)
    requires HasAt(out, pos, done) && pos + 3 <= out.Length
    modifies out
    ensures Has(out, done + Triple(Value(c0), Value(c1), Value(c2), Value(c3)))
  {
    var v0, v1, v2, v3 := Value(c0), Value(c1), Value(c2), Value(c3);
    out[pos] := (v0 * 4 + v1 / 16) % 256;
    out[pos + 1] := (v1 * 16 + v2 / 4) % 256;
    out[pos + 2] := (v2 * 64 + v3) % 256;
  }
}
