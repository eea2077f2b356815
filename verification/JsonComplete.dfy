/**
  The parser of cJSON reads every JSON text of RFC 8259 that denotes a tree it can hold, with
  white space wherever the grammar allows it and strings spelled in any way.
*/
module JsonComplete {
  import opened Common
  import opened Json
  import opened JsonUtf8
  import opened JsonGrammar

  // ---------------------------------------------------------------------- strings

  /** Only the bytes of a code point are read as that code point. */
  lemma DecodedOnce(s: string)
    requires 0 < StandsFor(s) < 0x11_0000
    ensures s == Utf8(StandsFor(s)) && !IsSurrogate(StandsFor(s))
  {
    var uc := StandsFor(s);
    Utf8Decodes(uc, "");
    assert Utf8(uc) + "" == Utf8(uc);
    OneEncoding(s);
  }

  lemma Parts2(x: nat, y: nat)
    requires y < 0x40
    ensures (x * 0x40 + y) / 0x40 == x && (x * 0x40 + y) % 0x40 == y
  {
  }

  lemma Parts3(x: nat, y: nat, z: nat)
    requires y < 0x40 && z < 0x40
    ensures var u := x * 0x1000 + y * 0x40 + z; u / 0x1000 == x && u / 0x40 % 0x40 == y && u % 0x40 == z
  {
    var u := x * 0x1000 + y * 0x40 + z;
    Parts2(x * 0x40 + y, z);
    Parts2(x, y);
    assert u == (x * 0x40 + y) * 0x40 + z && u / 0x1000 == u / 0x40 / 0x40;
  }

  lemma Parts4(w: nat, x: nat, y: nat, z: nat)
    requires x < 0x40 && y < 0x40 && z < 0x40
    ensures var u := w * 0x4_0000 + x * 0x1000 + y * 0x40 + z;
      u / 0x4_0000 == w && u / 0x1000 % 0x40 == x && u / 0x40 % 0x40 == y && u % 0x40 == z
  {
    var u := w * 0x4_0000 + x * 0x1000 + y * 0x40 + z;
    Parts3(w * 0x40 + x, y, z);
    Parts2(w, x);
    assert u == (w * 0x40 + x) * 0x1000 + y * 0x40 + z && u / 0x4_0000 == u / 0x1000 / 0x40;
  }

  lemma OneEncoding(s: string)
    requires 0 < StandsFor(s) < 0x11_0000
    ensures s == Utf8(StandsFor(s))
  {
    match |s|
    case 1 =>
    case 2 => Parts2(s[0] as int - 0xC0, Low(s[1]));
    case 3 => Parts3(s[0] as int - 0xE0, Low(s[1]), Low(s[2]));
    case _ => Parts4(s[0] as int - 0xF0, Low(s[1]), Low(s[2]), Low(s[3]));
  }

  lemma EscapedUnit(h: string, uc: nat, more: string)
    requires 0 < uc < 0x1_0000 && !IsSurrogate(uc) && Writes(h, uc)
    ensures ParseChars("\\u" + h + more) == Prepend(Utf8(uc), ParseChars(more))
  {
    WrittenNumber(h, uc, more);
    assert (h + more)[..4] == h;
    assert Unicode(h + more) == Some((Utf8(uc), 4));
    UnicodeRead("\\u" + h + more, h + more, more, Utf8(uc), 4);
  }

  lemma EscapedPair(h: string, l: string, uc: nat, more: string)
    requires 0x1_0000 <= uc < 0x11_0000
    requires Writes(h, 0xD800 + (uc - 0x1_0000) / 0x400) && Writes(l, 0xDC00 + (uc - 0x1_0000) % 0x400)
    ensures ParseChars("\\u" + h + "\\u" + l + more) == Prepend(Utf8(uc), ParseChars(more))
  {
    PairStands(h, l, uc, 0xD800 + (uc - 0x1_0000) / 0x400, 0xDC00 + (uc - 0x1_0000) % 0x400, more);
    PairEnd(h, l, more);
    UnicodeRead("\\u" + h + "\\u" + l + more, h + "\\u" + l + more, more, Utf8(uc), 10);
  }

  lemma PairEnd(h: string, l: string, more: string)
    requires |h| == 4 && |l| == 4
    ensures (h + "\\u" + l + more)[10..] == more
    ensures "\\u" + h + "\\u" + l + more == "\\u" + (h + "\\u" + l + more)
  {
  }

  lemma PairPieces(p: string)
    requires |p| == 12 && p[..2] == "\\u" && p[6..8] == "\\u"
    ensures p == "\\u" + p[2..6] + "\\u" + p[8..]
  {
  }

  lemma UnicodeRead(t: string, t2: string, more: string, s: string, n: nat)
    requires t == "\\u" + t2 && Unicode(t2) == Some((s, n)) && t2[n..] == more
    ensures ParseChars(t) == Prepend(s, ParseChars(more))
  {
    assert t[2..] == t2 && !Ends(t[1..]);
    assert t[2 + n..] == more;
  }

  lemma UnitParses(p: string, uc: nat, more: string)
    requires |p| == 6 && p[..2] == "\\u" && 0 < uc < 0x1_0000 && !IsSurrogate(uc) && Writes(p[2..], uc)
    ensures ParseChars(p + more) == Prepend(Utf8(uc), ParseChars(more))
  {
    Halves(p, 2);
    EscapedUnit(p[2..], uc, more);
  }

  lemma PairParses(p: string, uc: nat, more: string)
    requires |p| == 12 && p[..2] == "\\u" && p[6..8] == "\\u" && 0x1_0000 <= uc < 0x11_0000
    requires Writes(p[2..6], 0xD800 + (uc - 0x1_0000) / 0x400) && Writes(p[8..], 0xDC00 + (uc - 0x1_0000) % 0x400)
    ensures ParseChars(p + more) == Prepend(Utf8(uc), ParseChars(more))
  {
    PairPieces(p);
    EscapedPair(p[2..6], p[8..], uc, more);
  }

  lemma NotZero(s: string)
    requires NoNul(s) && StandsFor(s) < 0x11_0000
    ensures StandsFor(s) > 0
  {
  }

  lemma EscapeParses(p: string, s: string, more: string)
    requires Spells(p, s) && |p| > 2 && NoNul(s)
    ensures ParseChars(p + more) == Prepend(s, ParseChars(more))
  {
    NotZero(s);
    DecodedOnce(s);
    if |p| == 6 {
      UnitParses(p, StandsFor(s), more);
    } else {
      PairParses(p, StandsFor(s), more);
    }
  }

  /** Whatever spells some bytes is read as them. */
  lemma SpelledParses(p: string, s: string, more: string)
    requires Spells(p, s) && NoNul(s)
    ensures ParseChars(p + more) == Prepend(s, ParseChars(more))
  {
    if |p| == 1 {
      assert p == [s[0]];
      ParsePlain(s[0], more);
    } else if |p| == 2 {
      assert p == "\\" + [p[1]] && s == [s[0]];
      ShortEscapeParses(p[1], s[0], more);
    } else {
      EscapeParses(p, s, more);
    }
  }

  lemma Halves(t: string, k: nat)
    requires k <= |t|
    ensures t == t[..k] + t[k..]
  {
  }

  lemma FirstSpelled(t: string, s: string) returns (p: string, c: string, more: string, tail: string)
    requires s != "" && SpellsAll(t, s)
    ensures t == p + more && s == c + tail && |tail| < |s| && Spells(p, c) && SpellsAll(more, tail)
  {
    var k: nat, n: nat :| 0 < k <= |t| && 0 < n <= |s| && Spells(t[..k], s[..n]) && SpellsAll(t[k..], s[n..]);
    Halves(t, k);
    Halves(s, n);
    p, c, more, tail := t[..k], s[..n], t[k..], s[n..];
  }

  lemma Rejoin(p: string, more: string, rest: string)
    ensures (p + more) + "\"" + rest == p + (more + "\"" + rest)
  {
  }

  lemma NextSpelled(p: string, c: string, more: string, tail: string, rest: string)
    requires Spells(p, c) && NoNul(c) && ParseChars(more + "\"" + rest) == Some((tail, rest))
    ensures ParseChars((p + more) + "\"" + rest) == Some((c + tail, rest))
  {
    SpelledParses(p, c, more + "\"" + rest);
    Rejoin(p, more, rest);
  }

  lemma {:induction false} SpelledStringParses(t: string, s: string, rest: string)
    requires SpellsAll(t, s) && NoNul(s)
    ensures ParseChars(t + "\"" + rest) == Some((s, rest))
    decreases |s|
  {
    if s == "" {
      assert t + "\"" + rest == "\"" + rest && ("\"" + rest)[1..] == rest;
    } else {
      var p, c, more, tail := FirstSpelled(t, s);
      NoNulParts(c, tail);
      SpelledStringParses(more, tail, rest);
      NextSpelled(p, c, more, tail, rest);
    }
  }

  lemma NoNulParts(a: string, b: string)
    requires NoNul(a + b)
    ensures NoNul(a) && NoNul(b)
  {
    assert forall i :: 0 <= i < |a| ==> (a + b)[i] == a[i];
    assert forall i :: 0 <= i < |b| ==> (a + b)[|a| + i] == b[i];
  }

  lemma StringParses(t: string, s: string, rest: string)
    requires DenotesString(t, s) && NoNul(s)
    ensures t != "" && t[0] == '\"' && ParseChars((t + rest)[1..]) == Some((s, rest))
  {
    var body := t[1..|t| - 1];
    SpelledStringParses(body, s, rest);
    assert (t + rest)[1..] == body + "\"" + rest;
  }

  // ---------------------------------------------------------------------- numbers

  lemma DigitRead(c: char)
    requires '0' <= c <= '9'
    ensures IsDigit(c) && c as int - '0' as int == DigitWorth(c)
  {
  }

  lemma {:induction false} DigitsRead(t: string, rest: string)
    requires forall i :: 0 <= i < |t| ==> '0' <= t[i] <= '9'
    ensures ParseDigits(t + rest, 0) == ParseDigits(rest, Worth(t))
    decreases |t|
  {
    if t == "" {
      assert t + rest == rest;
    } else {
      var n := |t| - 1;
      DigitRead(t[n]);
      DigitsRead(t[..n], [t[n]] + rest);
      assert t + rest == t[..n] + ([t[n]] + rest);
      assert ([t[n]] + rest)[1..] == rest;
    }
  }

  lemma ZeroOnly(t: string)
    requires IsDigits(t) && t[0] == '0'
    ensures t == "0" && Worth(t) == 0
  {
    assert t == "0" && t[..0] == "";
  }

  /** The digits of a number, without a sign. */
  lemma DigitsParse(t: string, rest: string)
    requires IsDigits(t) && Follows(rest)
    ensures var t2 := if Starts(t + rest, '0') then (t + rest)[1..] else t + rest;
      (if t2 != "" && '1' <= t2[0] <= '9' then ParseDigits(t2, 0) else (0, t2)) == (Worth(t), rest)
  {
    if t[0] == '0' {
      ZeroOnly(t);
      assert (t + rest)[1..] == rest;
    } else {
      DigitsRead(t, rest);
    }
  }

  lemma NumberParses(t: string, n: int, rest: string)
    requires DenotesNumber(t, n) && Follows(rest)
    ensures t != "" && (t[0] == '-' || IsDigit(t[0])) && ParseNumber(t + rest) == Some((Num(n), rest))
  {
    if t[0] == '-' {
      DigitsParse(t[1..], rest);
      assert (t + rest)[1..] == t[1..] + rest;
    } else {
      DigitsParse(t, rest);
    }
  }

  // ------------------------------------------------------------------------ values

  /** How the rest of the text begins behind a value inside an array or object. */
  predicate Closes(rest: string) {
    rest != "" && (rest[0] == ',' || rest[0] == ']' || rest[0] == '}')
  }

  lemma {:induction false} WsThen(w: string, rest: string)
    requires Ws(w) && Follows(rest)
    ensures Follows(w + rest) && Skip(w + rest) == Skip(rest)
  {
    WsSkipped(w, rest);
    if w == "" { assert w + rest == rest; }
  }

  /** A word, and the text behind it. */
  lemma WordParses(t: string, v: Json, rest: string)
    requires (v.Null? && t == "null") || (v.False? && t == "false") || (v.True? && t == "true")
    ensures ParseValue(t + rest) == Some((v, rest))
  {
    assert (t + rest)[..|t|] == t && (t + rest)[|t|..] == rest;
    if !v.Null? { assert (t + rest)[0] != 'n' && !Begins(t + rest, "null") by { OtherWord(t + rest, "null"); } }
    if v.True? { assert !Begins(t + rest, "false") by { OtherWord(t + rest, "false"); } }
  }

  lemma OtherWord(t: string, word: string)
    requires t != "" && word != "" && t[0] != word[0]
    ensures !Begins(t, word)
  {
    assert |t| >= |word| ==> t[..|word|][0] == t[0];
  }

  /** The start of a value is visible and closes nothing. */
  predicate Opens(t: string) {
    t != "" && t[0] > 32 as char && t[0] != ']' && t[0] != '}'
  }

  lemma {:induction false} ValueParses(t: string, v: Json, rest: string)
    requires Denotes(t, v) && Holds(v) && Follows(rest)
    ensures Opens(t) && ParseValue(t + rest) == Some((v, rest))
    decreases v, 0
  {
    match v
    case Null => WordParses(t, v, rest);
    case False => WordParses(t, v, rest);
    case True => WordParses(t, v, rest);
    case Num(n) =>
      NumberParses(t, n, rest);
      NotWord(t + rest);
    case Str(s) =>
      StringParses(t, s, rest);
      NotWord(t + rest);
    case Arr(items) =>
      var body := t[1..|t| - 1];
      NotWord(t + rest);
      assert (t + rest)[1..] == body + ("]" + rest);
      if items.NoItems? {
        WsSkipped(body, "]" + rest);
        assert ("]" + rest)[1..] == rest;
      } else {
        ItemsParse(body, items, rest);
        ItemsSkip(body + ("]" + rest));
      }
    case Obj(members) =>
      var body := t[1..|t| - 1];
      NotWord(t + rest);
      assert (t + rest)[1..] == body + ("}" + rest);
      if members.NoMembers? {
        WsSkipped(body, "}" + rest);
        assert ("}" + rest)[1..] == rest;
      } else {
        MembersParse(body, members, rest);
        ParseSkips(body + ("}" + rest));
      }
  }

  lemma ItemsSkip(t: string)
    ensures ParseItems(Skip(t)) == ParseItems(t)
  {
    SkipTwice(t);
  }

  lemma Cut3(t: string, a: nat, b: nat)
    requires a <= b <= |t|
    ensures t == t[..a] + (t[a..b] + t[b..])
  {
  }

  lemma Cut2(t: string, k: nat, c: char)
    requires k < |t| && t[k] == c
    ensures t == t[..k] + ([c] + t[k + 1..])
  {
  }

  lemma SplitPadded(t: string, v: Json) returns (w: string, p: string, z: string)
    requires Padded(t, v)
    ensures t == w + (p + z) && Ws(w) && Denotes(p, v) && Ws(z)
  {
    var a: nat, b: nat :| a <= b <= |t| && Ws(t[..a]) && Denotes(t[a..b], v) && Ws(t[b..]);
    Cut3(t, a, b);
    w, p, z := t[..a], t[a..b], t[b..];
  }

  lemma SplitName(t: string, name: string) returns (w: string, p: string, z: string)
    requires PaddedName(t, name)
    ensures t == w + (p + z) && Ws(w) && DenotesString(p, name) && Ws(z)
  {
    var a: nat, b: nat :| a <= b <= |t| && Ws(t[..a]) && DenotesString(t[a..b], name) && Ws(t[b..]);
    Cut3(t, a, b);
    w, p, z := t[..a], t[a..b], t[b..];
  }

  lemma SplitItems(t: string, v: Json, tail: Items) returns (first: string, more: string)
    requires tail.Item? && DenotesItems(t, Item(v, tail))
    ensures t == first + ("," + more) && Padded(first, v) && DenotesItems(more, tail)
  {
    var k: nat :| k < |t| && t[k] == ',' && Padded(t[..k], v) && DenotesItems(t[k + 1..], tail);
    Cut2(t, k, ',');
    first, more := t[..k], t[k + 1..];
  }

  lemma SplitMember(t: string, name: string, v: Json) returns (first: string, more: string)
    requires DenotesMember(t, name, v)
    ensures t == first + (":" + more) && PaddedName(first, name) && Padded(more, v)
  {
    var k: nat :| k < |t| && t[k] == ':' && PaddedName(t[..k], name) && Padded(t[k + 1..], v);
    Cut2(t, k, ':');
    first, more := t[..k], t[k + 1..];
  }

  lemma SplitMembers(t: string, name: string, v: Json, tail: Members) returns (first: string, more: string)
    requires tail.Member? && DenotesMembers(t, Member(name, v, tail))
    ensures t == first + ("," + more) && DenotesMember(first, name, v) && DenotesMembers(more, tail)
  {
    var k: nat :| k < |t| && t[k] == ',' && DenotesMember(t[..k], name, v) && DenotesMembers(t[k + 1..], tail);
    Cut2(t, k, ',');
    first, more := t[..k], t[k + 1..];
  }

  lemma Join3(a: string, b: string, c: string, d: string)
    ensures (a + (b + c)) + d == a + (b + (c + d))
  {
  }

  lemma Join2(a: string, c: string, b: string, d: string)
    ensures (a + (c + b)) + d == a + (c + (b + d))
  {
  }

  /** White space before visible text is skipped. */
  lemma SkipTo(w: string, p: string, u: string)
    requires Ws(w) && Opens(p)
    ensures Skip(w + (p + u)) == p + u && Opens(p + u)
  {
    WsSkipped(w, p + u);
  }

  /** A value with white space around it is read, and then the white space behind it is skipped. */
  lemma {:induction false} PaddedParses(t: string, v: Json, rest: string) returns (u: string)
    requires Padded(t, v) && Holds(v) && Closes(rest)
    ensures ParseValue(Skip(t + rest)) == Some((v, u)) && Skip(u) == rest && Opens(Skip(t + rest))
    decreases v, 1
  {
    var w, p, z := SplitPadded(t, v);
    u := z + rest;
    WsThen(z, rest);
    ValueParses(p, v, u);
    Join3(w, p, z, rest);
    SkipTo(w, p, u);
  }

  lemma LastItemRead(t: string, v: Json, u: string, rest: string)
    requires ParseValue(Skip(t)) == Some((v, u)) && Skip(u) == "]" + rest
    ensures ParseItems(t) == Some((Item(v, NoItems), rest))
  {
    assert ("]" + rest)[1..] == rest;
  }

  lemma MoreItemsRead(t: string, v: Json, u: string, more: string, tail: Items, rest: string)
    requires ParseValue(Skip(t)) == Some((v, u)) && Skip(u) == "," + more && ParseItems(more) == Some((tail, rest))
    ensures ParseItems(t) == Some((Item(v, tail), rest))
  {
    assert ("," + more)[1..] == more;
  }

  lemma {:induction false} ItemsParse(t: string, items: Items, rest: string)
    requires DenotesItems(t, items) && items.Item? && HoldItems(items)
    ensures ParseItems(t + ("]" + rest)) == Some((items, rest)) && Opens(Skip(t + ("]" + rest)))
    decreases items, 0
  {
    var Item(v, tail) := items;
    var end := "]" + rest;
    if tail.NoItems? {
      var u := PaddedParses(t, v, end);
      LastItemRead(t + end, v, u, rest);
    } else {
      var first, more := SplitItems(t, v, tail);
      var u := PaddedParses(first, v, "," + (more + end));
      ItemsParse(more, tail, rest);
      Join2(first, ",", more, end);
      MoreItemsRead(t + end, v, u, more + end, tail, rest);
    }
  }

  lemma NameRead(p: string, name: string, z: string, rest: string)
    requires p != "" && p[0] == '\"' && ParseChars((p + (z + (":" + rest)))[1..]) == Some((name, z + (":" + rest))) && Ws(z)
    ensures ParseName(p + (z + (":" + rest))) == Some((name, rest))
  {
    WsSkipped(z, ":" + rest);
    assert (":" + rest)[1..] == rest;
  }

  lemma NameParses(t: string, name: string, rest: string)
    requires PaddedName(t, name) && NoNul(name)
    ensures ParseName(Skip(t + (":" + rest))) == Some((name, rest)) && Opens(Skip(t + (":" + rest)))
  {
    var w, p, z := SplitName(t, name);
    StringParses(p, name, z + (":" + rest));
    NameRead(p, name, z, rest);
    Join3(w, p, z, ":" + rest);
    SkipTo(w, p, z + (":" + rest));
  }

  /** A member and what follows it. */
  lemma {:induction false} MemberParses(t: string, name: string, v: Json, rest: string) returns (m: string, u: string)
    requires DenotesMember(t, name, v) && NoNul(name) && Holds(v) && Closes(rest)
    ensures ParseName(Skip(t + rest)) == Some((name, m)) && ParseValue(Skip(m)) == Some((v, u)) && Skip(u) == rest
    ensures Opens(Skip(t + rest))
    decreases v, 2
  {
    var first, second := SplitMember(t, name, v);
    m := second + rest;
    NameParses(first, name, m);
    u := PaddedParses(second, v, rest);
    Join2(first, ":", second, rest);
  }

  lemma LastMemberRead(t: string, name: string, m: string, v: Json, u: string, rest: string)
    requires ParseName(Skip(t)) == Some((name, m)) && ParseValue(Skip(m)) == Some((v, u)) && Skip(u) == "}" + rest
    ensures ParseMembers(t) == Some((Member(name, v, NoMembers), rest))
  {
    assert ("}" + rest)[1..] == rest;
  }

  lemma MoreMembersRead(t: string, name: string, m: string, v: Json, u: string, more: string, tail: Members, rest: string)
    requires ParseName(Skip(t)) == Some((name, m)) && ParseValue(Skip(m)) == Some((v, u)) && Skip(u) == "," + more
    requires ParseMembers(more) == Some((tail, rest))
    ensures ParseMembers(t) == Some((Member(name, v, tail), rest))
  {
    assert ("," + more)[1..] == more;
  }

  lemma {:induction false} MembersParse(t: string, members: Members, rest: string)
    requires DenotesMembers(t, members) && members.Member? && HoldMembers(members)
    ensures ParseMembers(t + ("}" + rest)) == Some((members, rest)) && Opens(Skip(t + ("}" + rest)))
    decreases members, 0
  {
    var Member(name, v, tail) := members;
    var end := "}" + rest;
    if tail.NoMembers? {
      var m, u := MemberParses(t, name, v, end);
      LastMemberRead(t + end, name, m, v, u, rest);
    } else {
      var first, more := SplitMembers(t, name, v, tail);
      var m, u := MemberParses(first, name, v, "," + (more + end));
      MembersParse(more, tail, rest);
      Join2(first, ",", more, end);
      MoreMembersRead(t + end, name, m, v, u, more + end, tail, rest);
    }
  }

  /** cJSON_Parse of any JSON text for a tree is that tree. */
  lemma ParseComplete(before: string, t: string, after: string, v: Json, whole: bool)
    requires Ws(before) && Denotes(t, v) && Ws(after) && Holds(v)
    ensures Parse(before + t + after, whole) == Some(v)
  {
    assert after + "" == after;
    WsThen(after, "");
    ValueParses(t, v, after);
    assert before + t + after == before + (t + after);
    WsSkipped(before, t + after);
  }
}
