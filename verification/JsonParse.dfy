/**
  The parser of cJSON.c as loops over a position in the text, proved to compute
  `Json.ParseValue`, and the size of the string that parse_string allocates.
*/
module JsonParse {
  import opened Common
  import opened Json

  /** The outcome at position i of the text: nothing, or a value and the next position. */
  predicate Agrees<T(==)>(t: string, spec: Option<(T, string)>, r: Option<(T, nat)>) {
    match r
    case None => spec == None
    case Some((v, j)) => j <= |t| && spec == Some((v, t[j..]))
  }

  lemma Tail(t: string, i: nat, n: nat)
    requires i + n <= |t|
    ensures t[i..][n..] == t[i + n..]
  {
  }

  /** skip */
  method SkipAt(t: string, i: nat) returns (j: nat)
    requires i <= |t|
    ensures i <= j <= |t| && t[j..] == Skip(t[i..])
  {
    j := i;
    while j < |t| && t[j] != '\0' && t[j] <= 32 as char
      invariant i <= j <= |t| && Skip(t[j..]) == Skip(t[i..])
    {
      Tail(t, j, 1);
      j := j + 1;
    }
  }

  /** The digits of parse_number. */
  method DigitsAt(t: string, i: nat) returns (n: nat, j: nat)
    requires i <= |t|
    ensures i <= j <= |t| && ParseDigits(t[i..], 0) == (n, t[j..])
  {
    n, j := 0, i;
    while j < |t| && IsDigit(t[j])
      invariant i <= j <= |t| && ParseDigits(t[j..], n) == ParseDigits(t[i..], 0)
      decreases |t| - j
    {
      Tail(t, j, 1);
      n := n * 10 + (t[j] as int - '0' as int);
      j := j + 1;
    }
  }

  /** parse_number */
  method NumberAt(t: string, i: nat) returns (r: Option<(Json, nat)>)
    requires i < |t| && (t[i] == '-' || IsDigit(t[i]))
    ensures Agrees(t, ParseNumber(t[i..]), r)
  {
    var j := i;
    var n: int := 0;
    if t[j] == '-' { Tail(t, j, 1); j := j + 1; }
    if j < |t| && t[j] == '0' { Tail(t, j, 1); j := j + 1; }
    if j < |t| && '1' <= t[j] <= '9' {
      n, j := DigitsAt(t, j);
    }
    if t[i] == '-' { n := -n; }
    if j < |t| && (IsDigit(t[j]) || t[j] == '.' || t[j] == 'e' || t[j] == 'E') {
      r := None;
    } else {
      r := Some((Num(n), j));
    }
  }

  /** The loop of parse_string that unescapes; i is behind the opening quote. */
  method CharsAt(t: string, i: nat) returns (r: Option<(string, nat)>)
    requires i <= |t|
    ensures Agrees(t, ParseChars(t[i..]), r)
  {
    var s, j := "", i;
    PrependNothing(ParseChars(t[i..]));
    while j < |t| && t[j] != '\0' && t[j] != '\"'
      invariant i <= j <= |t| && ParseChars(t[i..]) == Prepend(s, ParseChars(t[j..]))
      decreases |t| - j
    {
      var piece, n := PieceAt(t, j);
      if n == 0 {
        return None;
      }
      PrependTwice(s, piece, ParseChars(t[j + n..]));
      s, j := s + piece, j + n;
    }
    j := CloseAt(t, j);
    assert s + "" == s;
    r := Some((s, j));
  }

  /** The closing quote may be missing at the end of the text. */
  method CloseAt(t: string, j: nat) returns (k: nat)
    requires j <= |t| && (j < |t| ==> t[j] == '\0' || t[j] == '\"')
    ensures k <= |t| && ParseChars(t[j..]) == Some(("", t[k..]))
  {
    k := j;
    if j < |t| && t[j] == '\"' {
      Tail(t, j, 1);
      k := j + 1;
    }
  }

  /** One character or escape: what it stands for and how long it is, 0 for too short. */
  method PieceAt(t: string, j: nat) returns (piece: string, n: nat)
    requires j < |t| && t[j] != '\0' && t[j] != '\"'
    ensures n == 0 ==> ParseChars(t[j..]) == None
    ensures n > 0 ==> j + n <= |t| && ParseChars(t[j..]) == Prepend(piece, ParseChars(t[j + n..]))
  {
    Tail(t, j, 1);
    if t[j] != '\\' {
      piece, n := [t[j]], 1;
    } else if j + 1 == |t| || t[j + 1] == '\0' {
      piece, n := "", 0;
    } else {
      piece, n := EscapeAt(t, j);
    }
  }

  /** One turn of parse_hex4 takes the digit c behind the value h; false for anything else. */
  method HexDigitAt(c: char, h: nat) returns (ok: bool, h': nat)
    ensures ok <==> HexValue(c) < 16
    ensures ok ==> h' == 0x10 * h + HexValue(c)
  {
    ok := true;
    if '0' <= c <= '9' {
      h' := 0x10 * h + (c as int - '0' as int);
    } else if 'A' <= c <= 'F' {
      h' := 0x10 * h + (10 + c as int - 'A' as int);
    } else if 'a' <= c <= 'f' {
      h' := 0x10 * h + (10 + c as int - 'a' as int);
    } else {
      ok, h' := false, h;
    }
  }

  /** parse_hex4 */
  method Hex4At(t: string, i: nat) returns (h: nat)
    requires i + 4 <= |t|
    ensures h == ParseHex4(t[i..])
  {
    var ok;
    ok, h := HexDigitAt(t[i], 0);
    if !ok { return 0; }
    ok, h := HexDigitAt(t[i + 1], h);
    if !ok { return 0; }
    ok, h := HexDigitAt(t[i + 2], h);
    if !ok { return 0; }
    ok, h := HexDigitAt(t[i + 3], h);
    if !ok { return 0; }
  }

  /** The bytes of a code point, written from the last to the first, which carries the mark. */
  method PutUtf8(uc: nat) returns (s: string)
    requires 0 < uc < 0x11_0000
    ensures s == Utf8(uc)
  {
    var len := if uc < 0x80 then 1 else if uc < 0x800 then 2 else if uc < 0x1_0000 then 3 else 4;
    var firstByteMark := [0x00, 0x00, 0xC0, 0xE0, 0xF0];
    var left, k := uc, len;
    s := "";
    while k > 1
      invariant 1 <= k <= len && |s| == len - k
      invariant left == if k == len then uc else if k == len - 1 then uc / 0x40
                        else if k == len - 2 then uc / 0x40 / 0x40 else uc / 0x40 / 0x40 / 0x40
      invariant k <= len - 1 ==> s[|s| - 1] == (0x80 + uc % 0x40) as char
      invariant k <= len - 2 ==> s[|s| - 2] == (0x80 + uc / 0x40 % 0x40) as char
      invariant k <= len - 3 ==> s[|s| - 3] == (0x80 + uc / 0x40 / 0x40 % 0x40) as char
    {
      s := [(0x80 + left % 0x40) as char] + s;
      left := left / 0x40;
      k := k - 1;
    }
    Shifted(uc);
    s := [(firstByteMark[len] + left) as char] + s;
  }

  lemma Shifted(uc: nat)
    ensures uc / 0x40 / 0x40 == uc / 0x1000 && uc / 0x40 / 0x40 / 0x40 == uc / 0x4_0000
  {
  }

  /** The case of parse_string for the digits behind \u at position i: what they and perhaps a second
      surrogate stand for, and how many characters that takes, 0 for too few. */
  method UnicodeAt(t: string, i: nat) returns (piece: string, n: nat)
    requires i <= |t|
    ensures n == 0 ==> Unicode(t[i..]) == None
    ensures n > 0 ==> Unicode(t[i..]) == Some((piece, n))
  {
    piece, n := "", 0;
    if i + 4 > |t| || !NoNul(t[i..][..4]) {
      return;
    }
    n := 4;
    var uc := Hex4At(t, i);
    if 0xDC00 <= uc <= 0xDFFF || uc == 0 {
      return;
    }
    if 0xD800 <= uc <= 0xDBFF {
      var second := WordAt(t, i + 4, "\\u");
      Tail(t, i, 4);
      if !second {
        return;
      }
      if i + 10 > |t| || !NoNul(t[i..][..10]) {
        n := 0;
        return;
      }
      n := 10;
      Tail(t, i, 6);
      var uc2 := Hex4At(t, i + 6);
      if uc2 < 0xDC00 || uc2 > 0xDFFF {
        return;
      }
      uc := 0x1_0000 + (uc % 0x400) * 0x400 + uc2 % 0x400;
    }
    piece := PutUtf8(uc);
  }

  lemma EscapeUnfolds(u: string)
    requires |u| > 1 && u[0] == '\\' && u[1] != '\0'
    ensures ParseChars(u) == if u[1] != 'u' then Prepend([Unescape(u[1])], ParseChars(u[2..]))
                             else match Unicode(u[2..])
                                  case None => None
                                  case Some((s, n)) => Prepend(s, ParseChars(u[2 + n..]))
  {
    var v := u[1..];
    assert !Ends(u) && !Ends(v);
  }

  /** One escape of parse_string: what it stands for and how long it is, 0 for too short. */
  method EscapeAt(t: string, j: nat) returns (piece: string, n: nat)
    requires j + 1 < |t| && t[j] == '\\' && t[j + 1] != '\0'
    ensures n == 0 ==> ParseChars(t[j..]) == None
    ensures n > 0 ==> j + n <= |t| && ParseChars(t[j..]) == Prepend(piece, ParseChars(t[j + n..]))
  {
    EscapeUnfolds(t[j..]);
    Tail(t, j, 2);
    if t[j + 1] == 'u' {
      piece, n := UnicodeAt(t, j + 2);
      if n > 0 {
        Tail(t, j, 2 + n);
        n := 2 + n;
      }
    } else {
      piece, n := [Unescape(t[j + 1])], 2;
    }
  }

  lemma PrependNothing(r: Option<(string, string)>)
    ensures Prepend("", r) == r
  {
    if r.Some? { assert "" + r.value.0 == r.value.0; }
  }

  lemma PrependTwice(a: string, b: string, r: Option<(string, string)>)
    ensures Prepend(a, Prepend(b, r)) == Prepend(a + b, r)
  {
    if r.Some? { assert a + (b + r.value.0) == (a + b) + r.value.0; }
  }

  // ---------------------------------------------------------- linked children

  /** Link one more child behind the last. */
  function Linked(items: Items, v: Json): Items {
    match items
    case NoItems => Item(v, NoItems)
    case Item(h, tail) => Item(h, Linked(tail, v))
  }

  function Chained(items: Items, more: Items): Items {
    match items
    case NoItems => more
    case Item(h, tail) => Item(h, Chained(tail, more))
  }

  lemma {:induction false} ChainLinked(items: Items, v: Json, more: Items)
    ensures Chained(Linked(items, v), more) == Chained(items, Item(v, more))
  {
    if items.Item? { ChainLinked(items.tail, v, more); }
  }

  lemma {:induction false} ChainNothing(items: Items)
    ensures Chained(items, NoItems) == items
  {
    if items.Item? { ChainNothing(items.tail); }
  }

  function LinkedMember(members: Members, name: string, v: Json): Members {
    match members
    case NoMembers => Member(name, v, NoMembers)
    case Member(n, w, rest) => Member(n, w, LinkedMember(rest, name, v))
  }

  function ChainedMembers(members: Members, more: Members): Members {
    match members
    case NoMembers => more
    case Member(n, w, rest) => Member(n, w, ChainedMembers(rest, more))
  }

  lemma {:induction false} ChainLinkedMember(members: Members, name: string, v: Json, more: Members)
    ensures ChainedMembers(LinkedMember(members, name, v), more) == ChainedMembers(members, Member(name, v, more))
  {
    if members.Member? { ChainLinkedMember(members.rest, name, v, more); }
  }

  lemma {:induction false} ChainNoMembers(members: Members)
    ensures ChainedMembers(members, NoMembers) == members
  {
    if members.Member? { ChainNoMembers(members.rest); }
  }

  /** The outcome for all children, `items` being linked already. */
  function After(items: Items, r: Option<(Items, string)>): Option<(Items, string)> {
    match r
    case None => None
    case Some((more, rest)) => Some((Chained(items, more), rest))
  }

  function AfterMembers(members: Members, r: Option<(Members, string)>): Option<(Members, string)> {
    match r
    case None => None
    case Some((more, rest)) => Some((ChainedMembers(members, more), rest))
  }

  // -------------------------------------------------------------------- parsing

  /** strncmp(t + i, word, |word|) == 0 */
  method WordAt(t: string, i: nat, word: string) returns (b: bool)
    requires i <= |t|
    ensures b <==> Begins(t[i..], word)
    ensures b ==> i + |word| <= |t|
  {
    b := i + |word| <= |t| && t[i..i + |word|] == word;
    if i + |word| <= |t| {
      assert t[i..i + |word|] == t[i..][..|word|];
    }
  }

  /** A value and what follows it: a comma (true) or the closing character (false). */
  function ValueAnd(u: string, close: char): Option<((Json, bool), string)> {
    match ParseValue(Skip(u))
    case None => None
    case Some((v, t1)) =>
      var t2 := Skip(t1);
      if Starts(t2, ',') then Some(((v, true), t2[1..]))
      else if Starts(t2, close) then Some(((v, false), t2[1..]))
      else None
  }

  /** The child v in front of the others. */
  function WithItem(v: Json, r: Option<(Items, string)>): Option<(Items, string)> {
    match r
    case None => None
    case Some((items, rest)) => Some((Item(v, items), rest))
  }

  function WithMember(name: string, v: Json, r: Option<(Members, string)>): Option<(Members, string)> {
    match r
    case None => None
    case Some((members, rest)) => Some((Member(name, v, members), rest))
  }

  lemma AfterMore(items: Items, v: Json, r: Option<(Items, string)>)
    ensures After(Linked(items, v), r) == After(items, WithItem(v, r))
  {
    if r.Some? { ChainLinked(items, v, r.value.0); }
  }

  lemma AfterMoreMembers(members: Members, name: string, v: Json, r: Option<(Members, string)>)
    ensures AfterMembers(LinkedMember(members, name, v), r) == AfterMembers(members, WithMember(name, v, r))
  {
    if r.Some? { ChainLinkedMember(members, name, v, r.value.0); }
  }

  lemma ItemsByTurns(u: string)
    ensures ParseItems(u) ==
      match ValueAnd(u, ']')
      case None => None
      case Some(((v, more), rest)) => if more then WithItem(v, ParseItems(rest)) else Some((Item(v, NoItems), rest))
  {
  }

  lemma MembersByTurns(u: string)
    ensures ParseMembers(u) ==
      match ParseName(Skip(u))
      case None => None
      case Some((name, t1)) =>
        match ValueAnd(t1, '}')
        case None => None
        case Some(((v, more), rest)) =>
          if more then WithMember(name, v, ParseMembers(rest)) else Some((Member(name, v, NoMembers), rest))
  {
  }

  /** parse_value */
  method ValueAt(t: string, i: nat) returns (r: Option<(Json, nat)>)
    requires i <= |t|
    ensures Agrees(t, ParseValue(t[i..]), r)
    decreases |t| - i, 1
  {
    var isNull := WordAt(t, i, "null");
    var isFalse := WordAt(t, i, "false");
    var isTrue := WordAt(t, i, "true");
    if isNull {
      r := Some((Null, i + 4));
    } else if isFalse {
      r := Some((False, i + 5));
    } else if isTrue {
      r := Some((True, i + 4));
    } else if i == |t| {
      r := None;
    } else if t[i] == '\"' {
      Tail(t, i, 1);
      var s := CharsAt(t, i + 1);
      r := match s case None => None case Some((u, j)) => Some((Str(u), j));
    } else if t[i] == '-' || IsDigit(t[i]) {
      r := NumberAt(t, i);
    } else if t[i] == '[' {
      r := ArrayAt(t, i);
    } else if t[i] == '{' {
      r := ObjectAt(t, i);
    } else {
      r := None;
    }
  }

  /** parse_array */
  method ArrayAt(t: string, i: nat) returns (r: Option<(Json, nat)>)
    requires i < |t| && t[i] == '['
    ensures Agrees(t, ParseValue(t[i..]), r)
    decreases |t| - i, 0
  {
    NotWord(t[i..]);
    Tail(t, i, 1);
    var j := SkipAt(t, i + 1);
    if j < |t| && t[j] == ']' {
      Tail(t, j, 1);
      r := Some((Arr(NoItems), j + 1));
    } else {
      var items := ItemsAt(t, j);
      r := match items case None => None case Some((c, k)) => Some((Arr(c), k));
    }
  }

  /** The children of parse_array; each turn links one more. */
  method ItemsAt(t: string, i: nat) returns (r: Option<(Items, nat)>)
    requires i <= |t|
    ensures Agrees(t, ParseItems(t[i..]), r)
    decreases |t| - i, 3
  {
    var items, j := NoItems, i;
    while true
      invariant i <= j <= |t| && ParseItems(t[i..]) == After(items, ParseItems(t[j..]))
      decreases |t| - j
    {
      ItemsByTurns(t[j..]);
      var r1 := ThenAt(t, j, ']');
      if r1.None? {
        return None;
      }
      var ((v, more), next) := r1.value;
      if more {
        AfterMore(items, v, ParseItems(t[next..]));
        items, j := Linked(items, v), next;
      } else {
        ChainLinked(items, v, NoItems);
        ChainNothing(Linked(items, v));
        return Some((Linked(items, v), next));
      }
    }
  }

  /** Parse a value and look at what follows. */
  method ThenAt(t: string, j: nat, close: char) returns (r: Option<((Json, bool), nat)>)
    requires j <= |t|
    ensures Agrees(t, ValueAnd(t[j..], close), r)
    ensures r.Some? ==> j < r.value.1
    decreases |t| - j, 2
  {
    r := None;
    var k := SkipAt(t, j);
    var w := ValueAt(t, k);
    if w.Some? {
      var l := SkipAt(t, w.value.1);
      Consumed(t, k, w.value.1);
      if l < |t| && (t[l] == ',' || t[l] == close) {
        Tail(t, l, 1);
        r := Some(((w.value.0, t[l] == ','), l + 1));
      }
    }
  }

  /** A parsed value takes at least one character. */
  lemma Consumed(t: string, i: nat, j: nat)
    requires i <= |t| && j <= |t| && ParseValue(t[i..]).Some? && ParseValue(t[i..]).value.1 == t[j..]
    ensures i < j
  {
    assert |t[j..]| < |t[i..]|;
  }

  /** parse_object */
  method ObjectAt(t: string, i: nat) returns (r: Option<(Json, nat)>)
    requires i < |t| && t[i] == '{'
    ensures Agrees(t, ParseValue(t[i..]), r)
    decreases |t| - i, 0
  {
    NotWord(t[i..]);
    Tail(t, i, 1);
    var j := SkipAt(t, i + 1);
    if j < |t| && t[j] == '}' {
      Tail(t, j, 1);
      r := Some((Obj(NoMembers), j + 1));
    } else {
      var members := MembersAt(t, j);
      r := match members case None => None case Some((c, k)) => Some((Obj(c), k));
    }
  }

  /** A name and the colon. */
  method NameAt(t: string, i: nat) returns (r: Option<(string, nat)>)
    requires i <= |t|
    ensures Agrees(t, ParseName(t[i..]), r)
    ensures r.Some? ==> i < r.value.1
  {
    if i == |t| || t[i] != '\"' {
      return None;
    }
    Tail(t, i, 1);
    var s := CharsAt(t, i + 1);
    if s.None? {
      return None;
    }
    var j := SkipAt(t, s.value.1);
    if j < |t| && t[j] == ':' {
      Tail(t, j, 1);
      assert |t[j + 1..]| < |t[i..]|;
      r := Some((s.value.0, j + 1));
    } else {
      r := None;
    }
  }

  /** The members of parse_object. */
  method MembersAt(t: string, i: nat) returns (r: Option<(Members, nat)>)
    requires i <= |t|
    ensures Agrees(t, ParseMembers(t[i..]), r)
    decreases |t| - i, 3
  {
    var members, j := NoMembers, i;
    while true
      invariant i <= j <= |t| && ParseMembers(t[i..]) == AfterMembers(members, ParseMembers(t[j..]))
      decreases |t| - j
    {
      MembersByTurns(t[j..]);
      var k := SkipAt(t, j);
      var name := NameAt(t, k);
      if name.None? {
        return None;
      }
      var r1 := ThenAt(t, name.value.1, '}');
      if r1.None? {
        return None;
      }
      var ((v, more), next) := r1.value;
      if more {
        AfterMoreMembers(members, name.value.0, v, ParseMembers(t[next..]));
        members, j := LinkedMember(members, name.value.0, v), next;
      } else {
        ChainLinkedMember(members, name.value.0, v, NoMembers);
        ChainNoMembers(LinkedMember(members, name.value.0, v));
        return Some((LinkedMember(members, name.value.0, v), next));
      }
    }
  }

  // ------------------------------------------------- the room for a parsed string

  /** What the first loop of parse_string counts. */
  function Counted(t: string): nat
    decreases |t|
  {
    if Ends(t) || t[0] == '\"' then 0
    else if t[0] == '\\' then 1 + (if |t| == 1 then 0 else Counted(t[2..]))
    else 1 + Counted(t[1..])
  }

  predicate IsHex(t: string) {
    |t| >= 4 && forall i :: 0 <= i < 4 ==> HexValue(t[i]) < 16
  }

  /** Every \u up to the closing quote is followed by four hexadecimal digits. */
  predicate HexEscapes(t: string)
    decreases |t|
  {
    if Ends(t) || t[0] == '\"' then true
    else if t[0] == '\\' then
      |t| >= 2 && (t[1] == 'u' ==> IsHex(t[2..])) && HexEscapes(t[2..])
    else HexEscapes(t[1..])
  }

  lemma CountOne(t: string)
    requires t != "" && HexValue(t[0]) < 16
    ensures Counted(t) == 1 + Counted(t[1..]) && HexEscapes(t) == HexEscapes(t[1..])
  {
  }

  lemma CountHex(t: string)
    requires IsHex(t)
    ensures Counted(t) == 4 + Counted(t[4..]) && HexEscapes(t) == HexEscapes(t[4..])
  {
    CountOne(t);
    CountOne(t[1..]);
    Tail(t, 1, 1);
    CountOne(t[2..]);
    Tail(t, 2, 1);
    CountOne(t[3..]);
    Tail(t, 3, 1);
  }

  /** The unescaped string fits the allocated len + 1 characters. */
  lemma {:induction false} ParsedFits(t: string)
    requires HexEscapes(t) && ParseChars(t).Some?
    ensures |ParseChars(t).value.0| <= Counted(t)
    decreases |t|
  {
    if !Ends(t) && t[0] != '\"' {
      if t[0] != '\\' {
        ParsedFits(t[1..]);
      } else if t[1] == 'u' {
        var n := Unicode(t[2..]).value.1;
        UnicodeFits(t[2..]);
        assert t[2..][n..] == t[2 + n..];
        ParsedFits(t[2 + n..]);
      } else {
        ParsedFits(t[2..]);
      }
    }
  }

  lemma UnicodeFits(t: string)
    requires IsHex(t) && HexEscapes(t) && Unicode(t).Some?
    ensures var (s, n) := Unicode(t).value;
      n <= |t| && |s| + Counted(t[n..]) <= 1 + Counted(t) && HexEscapes(t[n..])
  {
    CountHex(t);
    if Unicode(t).value.1 == 10 {
      SecondHex(t[4..]);
      Tail(t, 4, 6);
    }
  }

  /** The second half of a surrogate pair. */
  lemma SecondHex(u: string)
    requires Begins(u, "\\u") && HexEscapes(u)
    ensures |u| >= 6 && Counted(u) == 5 + Counted(u[6..]) && HexEscapes(u[6..])
  {
    assert u[..2][0] == u[0] && u[..2][1] == u[1];
    CountHex(u[2..]);
    Tail(u, 2, 4);
  }

  lemma HexPlain(c: char, more: string)
    requires c != '\0' && c != '\"' && c != '\\' && HexEscapes(more)
    ensures HexEscapes([c] + more)
  {
    assert ([c] + more)[1..] == more;
  }

  lemma HexPair(c: char, more: string)
    requires c != '\0' && c != 'u' && HexEscapes(more)
    ensures HexEscapes(['\\', c] + more)
  {
    assert (['\\', c] + more)[2..] == more;
  }

  lemma HexControl(hex: string, more: string)
    requires |hex| == 4 && IsHex(hex) && HexEscapes(more)
    ensures HexEscapes("\\u" + hex + more)
  {
    var t := "\\u" + hex + more;
    assert t[2..] == hex + more && (hex + more)[4..] == more;
    assert forall k :: 0 <= k < 4 ==> (hex + more)[k] == hex[k];
    CountHex(hex + more);
  }

  lemma HexEscape(c: char, more: string)
    requires c != '\0' && HexEscapes(more)
    ensures HexEscapes(EscapeChar(c) + more)
  {
    if |EscapeChar(c)| == 1 {
      HexPlain(c, more);
    } else if |EscapeChar(c)| == 2 {
      assert EscapeChar(c) == ['\\', EscapeChar(c)[1]];
      HexPair(EscapeChar(c)[1], more);
    } else {
      var hex := ['0', '0', HexDigit(c as int / 16), HexDigit(c as int % 16)];
      assert EscapeChar(c) == "\\u" + hex;
      HexControl(hex, more);
    }
  }

  /** What the printer writes can be read back within the allocated room. */
  lemma {:induction false} PrintedFits(s: string, rest: string)
    requires NoNul(s)
    ensures HexEscapes(Escaped(s) + "\"" + rest) && |s| <= Counted(Escaped(s) + "\"" + rest)
    decreases |s|
  {
    HexPrinted(s, rest);
    ParseQuoted(s, rest);
    ParsedFits(Escaped(s) + "\"" + rest);
  }

  lemma {:induction false} HexPrinted(s: string, rest: string)
    requires NoNul(s)
    ensures HexEscapes(Escaped(s) + "\"" + rest)
    decreases |s|
  {
    if s == "" {
      assert Escaped(s) + "\"" + rest == "\"" + rest;
    } else {
      HexPrinted(s[1..], rest);
      assert Escaped(s) + "\"" + rest == EscapeChar(s[0]) + (Escaped(s[1..]) + "\"" + rest);
      HexEscape(s[0], Escaped(s[1..]) + "\"" + rest);
    }
  }

  /** cJSON_ParseWithOpts */
  method ParseText(text: string, whole: bool) returns (r: Option<Json>)
    ensures r == Parse(text, whole)
  {
    var i := SkipAt(text, 0);
    assert text[0..] == text;
    var v := ValueAt(text, i);
    if v.None? {
      return None;
    }
    if whole {
      var j := SkipAt(text, v.value.1);
      if j < |text| && text[j] != '\0' {
        return None;
      }
    }
    r := Some(v.value.0);
  }
}
