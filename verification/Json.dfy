/**
  JSON text as cJSON.c writes and reads it.  Numbers are integers in the range of a C
  int; strings are C strings, so they hold no NUL.

  `Print` and `ParseValue` say what the printers and the parser compute; the loops over
  buffers are in JsonBuffer.dfy.  The parser works on the rest of the text, an empty
  rest standing for the terminating NUL.
*/
module Json {
  import opened Common

  /** cJSON items; arrays and objects are linked lists of children. */
  datatype Json = Null | False | True | Num(n: int) | Str(s: string) | Arr(items: Items) | Obj(members: Members)

  datatype Items = NoItems | Item(head: Json, tail: Items)

  datatype Members = NoMembers | Member(name: string, value: Json, rest: Members)

  const BS := 8 as char
  const FF := 12 as char
  const INT_MIN := -0x8000_0000
  const INT_MAX := 0x7fff_ffff

  predicate NoNul(s: string) {
    forall i :: 0 <= i < |s| ==> s[i] != '\0'
  }

  /** What a tree of cJSON items can hold. */
  predicate Holds(v: Json) {
    match v
    case Num(n) => INT_MIN <= n <= INT_MAX
    case Str(s) => NoNul(s)
    case Arr(items) => HoldItems(items)
    case Obj(members) => HoldMembers(members)
    case _ => true
  }

  predicate HoldItems(items: Items) {
    match items
    case NoItems => true
    case Item(v, tail) => Holds(v) && HoldItems(tail)
  }

  predicate HoldMembers(members: Members) {
    match members
    case NoMembers => true
    case Member(name, v, rest) => NoNul(name) && Holds(v) && HoldMembers(rest)
  }

  // --------------------------------------------------------------------- printing

  function Digit(d: nat): (c: char)
    requires d < 10
    ensures '0' <= c <= '9' && c as int - '0' as int == d && (d > 0 ==> c != '0')
  {
    ('0' as int + d) as char
  }

  /** sprintf("%d") of a number that is not negative */
  function Decimal(n: nat): (s: string)
    ensures |s| > 0
  {
    if n < 10 then [Digit(n)] else Decimal(n / 10) + [Digit(n % 10)]
  }

  function PrintNumber(n: int): string {
    if n < 0 then "-" + Decimal(-n) else Decimal(n)
  }

  function HexDigit(d: nat): char
    requires d < 16
  {
    if d < 10 then ('0' as int + d) as char else ('a' as int + d - 10) as char
  }

  /** One character of a string literal. */
  function EscapeChar(c: char): (s: string)
    ensures 1 <= |s| <= 6 && NoNul(s)
    ensures s[0] != '\"'
  {
    if c > 31 as char && c != '\"' && c != '\\' then [c]
    else if c == '\\' then "\\\\"
    else if c == '\"' then "\\\""
    else if c == BS then "\\b"
    else if c == FF then "\\f"
    else if c == '\n' then "\\n"
    else if c == '\r' then "\\r"
    else if c == '\t' then "\\t"
    else ['\\', 'u', '0', '0', HexDigit(c as int / 16), HexDigit(c as int % 16)]
  }

  function Escaped(s: string): string {
    if s == "" then "" else EscapeChar(s[0]) + Escaped(s[1..])
  }

  function Quoted(s: string): string {
    "\"" + Escaped(s) + "\""
  }

  function Tabs(n: int): (s: string)
    ensures |s| == if n < 0 then 0 else n
    ensures forall i :: 0 <= i < |s| ==> s[i] == '\t'
  {
    if n <= 0 then "" else "\t" + Tabs(n - 1)
  }

  function Print(v: Json, depth: nat, fmt: bool): string
    decreases v, 0
  {
    match v
    case Null => "null"
    case False => "false"
    case True => "true"
    case Num(n) => PrintNumber(n)
    case Str(s) => Quoted(s)
    case Arr(items) => "[" + PrintItems(items, depth + 1, fmt) + "]"
    case Obj(members) =>
      if members.NoMembers? then (if fmt then "{\n" + Tabs(depth - 1) else "{") + "}"
      else Open(fmt) + PrintMembers(members, depth + 1, fmt) + Close(depth, fmt)
  }

  function Open(fmt: bool): string {
    if fmt then "{\n" else "{"
  }

  function Close(depth: nat, fmt: bool): string {
    (if fmt then Tabs(depth) else "") + "}"
  }

  function Comma(fmt: bool): string {
    if fmt then ", " else ","
  }

  function PrintItems(items: Items, depth: nat, fmt: bool): string
    decreases items, 1
  {
    match items
    case NoItems => ""
    case Item(v, tail) =>
      Print(v, depth, fmt) + if tail.NoItems? then "" else Comma(fmt) + PrintItems(tail, depth, fmt)
  }

  /** What stands before a member's value. */
  function Label(name: string, depth: nat, fmt: bool): string {
    (if fmt then Tabs(depth) else "") + (Quoted(name) + if fmt then ":\t" else ":")
  }

  function Ending(last: bool, fmt: bool): string {
    (if last then "" else ",") + if fmt then "\n" else ""
  }

  function PrintMembers(members: Members, depth: nat, fmt: bool): string
    decreases members, 1
  {
    match members
    case NoMembers => ""
    case Member(name, v, rest) =>
      Label(name, depth, fmt) + Print(v, depth, fmt) + Ending(rest.NoMembers?, fmt) + PrintMembers(rest, depth, fmt)
  }

  // ---------------------------------------------------------------------- parsing

  predicate Ends(t: string) {
    t == "" || t[0] == '\0'
  }

  predicate Starts(t: string, c: char) {
    t != "" && t[0] == c
  }

  /** strncmp(t, word, |word|) == 0 */
  predicate Begins(t: string, word: string) {
    |word| <= |t| && t[..|word|] == word
  }

  /** Jump white space and other control characters. */
  function Skip(t: string): (r: string)
    ensures |r| <= |t|
  {
    if !Ends(t) && t[0] <= 32 as char then Skip(t[1..]) else t
  }

  predicate IsDigit(c: char) {
    '0' <= c <= '9'
  }

  function ParseDigits(t: string, acc: nat): (r: (nat, string))
    ensures |r.1| <= |t|
    decreases |t|
  {
    if t != "" && IsDigit(t[0]) then ParseDigits(t[1..], acc * 10 + (t[0] as int - '0' as int)) else (acc, t)
  }

  /** parse_number, but for fractions and exponents, which this model does not have. */
  function ParseNumber(t: string): (r: Option<(Json, string)>)
    requires t != "" && (t[0] == '-' || IsDigit(t[0]))
    ensures r.Some? ==> |r.value.1| < |t|
  {
    var t1 := if t[0] == '-' then t[1..] else t;
    var t2 := if Starts(t1, '0') then t1[1..] else t1;
    var (n, rest) := if t2 != "" && '1' <= t2[0] <= '9' then ParseDigits(t2, 0) else (0, t2);
    var m: int := n;
    if Follows(rest) then Some((Num(if t[0] == '-' then -m else m), rest)) else None
  }

  /** Nothing that could go on with a number. */
  predicate Follows(rest: string) {
    rest == "" || (!IsDigit(rest[0]) && rest[0] != '.' && rest[0] != 'e' && rest[0] != 'E')
  }

  /** 16 stands for anything but a hexadecimal digit. */
  function HexValue(c: char): (n: nat)
    ensures n <= 16
  {
    if '0' <= c <= '9' then c as int - '0' as int
    else if 'A' <= c <= 'F' then 10 + c as int - 'A' as int
    else if 'a' <= c <= 'f' then 10 + c as int - 'a' as int
    else 16
  }

  /** parse_hex4: 0 for anything but four hexadecimal digits */
  function ParseHex4(t: string): (n: nat)
    requires |t| >= 4
    ensures n < 0x1_0000
  {
    var a, b, c, d := HexValue(t[0]), HexValue(t[1]), HexValue(t[2]), HexValue(t[3]);
    if a == 16 || b == 16 || c == 16 || d == 16 then 0 else a * 0x1000 + b * 0x100 + c * 0x10 + d
  }

  /** The bytes of a code point in UTF-8. */
  function Utf8(uc: nat): (s: string)
    requires 0 < uc < 0x11_0000
    ensures 1 <= |s| <= 4 && (uc < 0x1_0000 ==> |s| <= 3) && NoNul(s)
  {
    if uc < 0x80 then [uc as char]
    else if uc < 0x800 then [(0xC0 + uc / 0x40) as char, (0x80 + uc % 0x40) as char]
    else if uc < 0x1_0000 then [(0xE0 + uc / 0x1000) as char, (0x80 + uc / 0x40 % 0x40) as char, (0x80 + uc % 0x40) as char]
    else [(0xF0 + uc / 0x4_0000) as char, (0x80 + uc / 0x1000 % 0x40) as char,
          (0x80 + uc / 0x40 % 0x40) as char, (0x80 + uc % 0x40) as char]
  }

  /** What \u and the text t behind it stand for, and how much of t that takes; None if the
      text ends too early. */
  function Unicode(t: string): (r: Option<(string, nat)>)
    ensures r.Some? ==> 4 <= r.value.1 <= |t| && |r.value.0| <= r.value.1 && NoNul(r.value.0)
  {
    if |t| < 4 || !NoNul(t[..4]) then None
    else
      var uc := ParseHex4(t);
      if uc == 0 || 0xDC00 <= uc <= 0xDFFF then Some(("", 4))
      else if 0xD800 <= uc <= 0xDBFF then
        if !Begins(t[4..], "\\u") then Some(("", 4))
        else if |t| < 10 || !NoNul(t[..10]) then None
        else
          var uc2 := ParseHex4(t[6..]);
          if uc2 < 0xDC00 || uc2 > 0xDFFF then Some(("", 10))
          else Some((Utf8(0x1_0000 + (uc % 0x400) * 0x400 + uc2 % 0x400), 10))
      else Some((Utf8(uc), 4))
  }

  /** The character that an escape other than \u stands for. */
  function Unescape(c: char): char {
    if c == 'b' then BS else if c == 'f' then FF else if c == 'n' then '\n'
    else if c == 'r' then '\r' else if c == 't' then '\t' else c
  }

  /** parse_string behind the opening quote; the closing quote may be missing at the end of
      the text.  None where the source would read past the terminating NUL. */
  function ParseChars(t: string): (r: Option<(string, string)>)
    ensures r.Some? ==> |r.value.1| <= |t|
    decreases |t|
  {
    if Ends(t) then Some(("", t))
    else if t[0] == '\"' then Some(("", t[1..]))
    else if t[0] != '\\' then Prepend([t[0]], ParseChars(t[1..]))
    else if Ends(t[1..]) then None
    else if t[1] == 'u' then
      match Unicode(t[2..])
      case None => None
      case Some((s, n)) => Prepend(s, ParseChars(t[2 + n..]))
    else Prepend([Unescape(t[1])], ParseChars(t[2..]))
  }

  function Prepend(s: string, r: Option<(string, string)>): Option<(string, string)> {
    match r
    case None => None
    case Some((more, rest)) => Some((s + more, rest))
  }

  function ParseValue(t: string): (r: Option<(Json, string)>)
    ensures r.Some? ==> |r.value.1| < |t|
    decreases |t|, 0
  {
    if Begins(t, "null") then Some((Null, t[4..]))
    else if Begins(t, "false") then Some((False, t[5..]))
    else if Begins(t, "true") then Some((True, t[4..]))
    else if t == "" then None
    else if t[0] == '\"' then
      match ParseChars(t[1..])
      case None => None
      case Some((s, rest)) => Some((Str(s), rest))
    else if t[0] == '-' || IsDigit(t[0]) then ParseNumber(t)
    else if t[0] == '[' then
      if Starts(Skip(t[1..]), ']') then Some((Arr(NoItems), Skip(t[1..])[1..]))
      else
        match ParseItems(Skip(t[1..]))
        case None => None
        case Some((items, rest)) => Some((Arr(items), rest))
    else if t[0] == '{' then
      if Starts(Skip(t[1..]), '}') then Some((Obj(NoMembers), Skip(t[1..])[1..]))
      else
        match ParseMembers(Skip(t[1..]))
        case None => None
        case Some((members, rest)) => Some((Obj(members), rest))
    else None
  }

  /** The loop of parse_array. */
  function ParseItems(t: string): (r: Option<(Items, string)>)
    ensures r.Some? ==> |r.value.1| < |t|
    decreases |t|, 1
  {
    match ParseValue(Skip(t))
    case None => None
    case Some((v, t1)) =>
      var t2 := Skip(t1);
      if Starts(t2, ',') then
        match ParseItems(t2[1..])
        case None => None
        case Some((items, rest)) => Some((Item(v, items), rest))
      else if Starts(t2, ']') then Some((Item(v, NoItems), t2[1..]))
      else None
  }

  /** A member's name and the colon. */
  function ParseName(t: string): (r: Option<(string, string)>)
    ensures r.Some? ==> |r.value.1| < |t|
  {
    if !Starts(t, '\"') then None
    else
      match ParseChars(t[1..])
      case None => None
      case Some((name, t1)) =>
        var t2 := Skip(t1);
        if Starts(t2, ':') then Some((name, t2[1..])) else None
  }

  /** The loop of parse_object. */
  function ParseMembers(t: string): (r: Option<(Members, string)>)
    ensures r.Some? ==> |r.value.1| < |t|
    decreases |t|, 1
  {
    match ParseName(Skip(t))
    case None => None
    case Some((name, t1)) =>
      match ParseValue(Skip(t1))
      case None => None
      case Some((v, t2)) =>
        var t3 := Skip(t2);
        if Starts(t3, ',') then
          match ParseMembers(t3[1..])
          case None => None
          case Some((members, rest)) => Some((Member(name, v, members), rest))
        else if Starts(t3, '}') then Some((Member(name, v, NoMembers), t3[1..]))
        else None
  }

  /** cJSON_ParseWithOpts */
  function Parse(text: string, whole: bool): Option<Json> {
    match ParseValue(Skip(text))
    case None => None
    case Some((v, rest)) => if whole && !Ends(Skip(rest)) then None else Some(v)
  }

  // ------------------------------------------------------------------- round trip

  lemma {:induction false} DecimalStart(n: nat)
    ensures IsDigit(Decimal(n)[0]) && (n > 0 ==> Decimal(n)[0] != '0')
  {
    if n >= 10 { DecimalStart(n / 10); }
  }

  lemma {:induction false} ParseDecimal(n: nat, rest: string)
    ensures ParseDigits(Decimal(n) + rest, 0) == ParseDigits(rest, n)
    decreases n
  {
    if n < 10 {
      assert ([Digit(n)] + rest)[1..] == rest;
    } else {
      var d := Digit(n % 10);
      assert Decimal(n) + rest == Decimal(n / 10) + ([d] + rest);
      ParseDecimal(n / 10, [d] + rest);
      assert ([d] + rest)[1..] == rest;
    }
  }

  lemma ParsePositive(n: nat, rest: string)
    requires n > 0
    ensures var t := Decimal(n) + rest;
      t != "" && '1' <= t[0] <= '9' && ParseDigits(t, 0) == ParseDigits(rest, n)
    ensures Follows(rest) ==> ParseNumber(Decimal(n) + rest) == Some((Num(n), rest))
  {
    DecimalStart(n);
    ParseDecimal(n, rest);
  }

  lemma ParseNegative(n: int, rest: string)
    requires n > 0 && Follows(rest)
    ensures ParseNumber("-" + (Decimal(n) + rest)) == Some((Num(-n), rest))
  {
    ParsePositive(n, rest);
    var t := "-" + (Decimal(n) + rest);
    assert t[1..] == Decimal(n) + rest;
  }

  lemma ParsePrintedNumber(n: int, rest: string)
    requires Follows(rest)
    ensures PrintNumber(n) != "" && (PrintNumber(n)[0] == '-' || IsDigit(PrintNumber(n)[0]))
    ensures ParseNumber(PrintNumber(n) + rest) == Some((Num(n), rest))
  {
    if n < 0 {
      ParseNegative(-n, rest);
      assert ("-" + Decimal(-n)) + rest == "-" + (Decimal(-n) + rest);
    } else if n == 0 {
      assert "0" + rest == PrintNumber(n) + rest && ("0" + rest)[1..] == rest;
    } else {
      ParsePositive(n, rest);
    }
  }

  lemma ParsePlain(c: char, more: string)
    requires c != '\0' && c != '\"' && c != '\\'
    ensures ParseChars([c] + more) == Prepend([c], ParseChars(more))
  {
    assert ([c] + more)[1..] == more;
  }

  lemma ParsePair(c: char, more: string)
    requires c != '\0' && c != 'u'
    ensures ParseChars(['\\', c] + more) == Prepend([Unescape(c)], ParseChars(more))
  {
    var t := ['\\', c] + more;
    assert t[2..] == more && !Ends(t[1..]);
  }

  /** An escaped character is read back. */
  lemma ParseEscaped(c: char, more: string)
    requires c != '\0'
    ensures ParseChars(EscapeChar(c) + more) == Prepend([c], ParseChars(more))
  {
    if |EscapeChar(c)| == 1 {
      ParsePlain(c, more);
    } else if |EscapeChar(c)| == 2 {
      var x := EscapeChar(c)[1];
      assert EscapeChar(c) == ['\\', x];
      ParsePair(x, more);
    } else {
      ParseControl(c, more);
    }
  }

  lemma ParseControl(c: char, more: string)
    requires c != '\0' && |EscapeChar(c)| == 6
    ensures ParseChars(EscapeChar(c) + more) == Prepend([c], ParseChars(more))
  {
    var t := EscapeChar(c) + more;
    var hex := t[2..];
    assert hex[0] == '0' && hex[1] == '0' && hex[2] == HexDigit(c as int / 16) && hex[3] == HexDigit(c as int % 16);
    assert HexValue('0') == 0 && HexValue(hex[2]) == c as int / 16 && HexValue(hex[3]) == c as int % 16;
    assert ParseHex4(hex) == c as int;
    assert Unicode(hex) == Some(([c], 4));
    assert t[2 + 4..] == more;
    assert !Ends(t[1..]);
  }

  /** A printed string literal is read back. */
  lemma {:induction false} ParseQuoted(s: string, rest: string)
    requires NoNul(s)
    ensures ParseChars(Escaped(s) + "\"" + rest) == Some((s, rest))
    decreases |s|
  {
    if s == "" {
      assert Escaped(s) + "\"" + rest == "\"" + rest;
      assert ("\"" + rest)[1..] == rest;
    } else {
      ParseQuoted(s[1..], rest);
      ParseEscaped(s[0], Escaped(s[1..]) + "\"" + rest);
      assert Escaped(s) + "\"" + rest == EscapeChar(s[0]) + (Escaped(s[1..]) + "\"" + rest);
      assert [s[0]] + s[1..] == s;
    }
  }

  lemma ParsePrintedString(s: string, rest: string)
    requires NoNul(s)
    ensures ParseValue(Quoted(s) + rest) == Some((Str(s), rest))
  {
    var t := Quoted(s) + rest;
    NotWord(t);
    assert t[1..] == Escaped(s) + "\"" + rest;
    ParseQuoted(s, rest);
  }

  lemma {:induction false} SkipBlank(blank: string, rest: string)
    requires Blank(blank)
    ensures Skip(blank + rest) == Skip(rest)
    decreases |blank|
  {
    if blank == "" {
      assert blank + rest == rest;
    } else {
      assert (blank + rest)[1..] == blank[1..] + rest;
      SkipBlank(blank[1..], rest);
    }
  }

  /** A printed value starts with a visible character. */
  lemma PrintStart(v: Json, depth: nat, fmt: bool)
    ensures Print(v, depth, fmt) != "" && Print(v, depth, fmt)[0] > 32 as char
    ensures Print(v, depth, fmt)[0] != ']' && Print(v, depth, fmt)[0] != '}'
  {
    match v
    case Num(n) => DecimalStart(if n < 0 then -n else n);
    case _ =>
  }

  /**
    Parsing what was printed gives back the same tree and leaves exactly what follows,
    formatted or not, at any depth.
  */
  lemma {:induction false} ParsePrinted(v: Json, depth: nat, fmt: bool, rest: string)
    requires Holds(v) && Follows(rest)
    ensures ParseValue(Print(v, depth, fmt) + rest) == Some((v, rest))
    decreases v, 0
  {
    var t := Print(v, depth, fmt) + rest;
    match v
    case Null => ParseWords(rest);
    case False => ParseWords(rest);
    case True => ParseWords(rest);
    case Num(n) =>
      ParsePrintedNumber(n, rest);
      NotWord(t);
    case Str(s) => ParsePrintedString(s, rest);
    case Arr(items) => ParsePrintedArray(items, depth, fmt, rest);
    case Obj(members) => ParsePrintedObject(members, depth, fmt, rest);
  }

  lemma ParseWords(rest: string)
    ensures ParseValue("null" + rest) == Some((Null, rest))
    ensures ParseValue("false" + rest) == Some((False, rest))
    ensures ParseValue("true" + rest) == Some((True, rest))
  {
    assert ("null" + rest)[..4] == "null" && ("null" + rest)[4..] == rest;
    assert ("false" + rest)[..5] == "false" && ("false" + rest)[5..] == rest && ("false" + rest)[0] != 'n';
    assert ("true" + rest)[..4] == "true" && ("true" + rest)[4..] == rest && ("true" + rest)[0] !in "nf";
  }

  lemma NotWord(t: string)
    requires t != "" && t[0] !in "nft"
    ensures !Begins(t, "null") && !Begins(t, "false") && !Begins(t, "true")
  {
    forall word | word != "" && Begins(t, word) ensures t[0] == word[0] {
      assert t[..|word|][0] == word[0];
    }
  }

  predicate Blank(s: string) {
    forall i :: 0 <= i < |s| ==> s[i] != '\0' && s[i] <= 32 as char
  }

  predicate Visible(s: string) {
    s != "" && s[0] > 32 as char
  }

  /** parse_array at the last child. */
  lemma LastItem(blank: string, p: string, v: Json, rest: string)
    requires Blank(blank) && Visible(p) && ParseValue(p + ("]" + rest)) == Some((v, "]" + rest))
    ensures ParseItems(blank + (p + ("]" + rest))) == Some((Item(v, NoItems), rest))
  {
    SkipBlank(blank, p + ("]" + rest));
    assert Skip(p + ("]" + rest)) == p + ("]" + rest);
    assert Skip("]" + rest) == "]" + rest && ("]" + rest)[1..] == rest;
  }

  /** parse_array at a child before others. */
  lemma MoreItems(blank: string, p: string, v: Json, more: string, items: Items, rest: string)
    requires Blank(blank) && Visible(p) && ParseValue(p + ("," + more)) == Some((v, "," + more))
    requires ParseItems(more) == Some((items, rest))
    ensures ParseItems(blank + (p + ("," + more))) == Some((Item(v, items), rest))
  {
    SkipBlank(blank, p + ("," + more));
    assert Skip(p + ("," + more)) == p + ("," + more);
    assert Skip("," + more) == "," + more && ("," + more)[1..] == more;
  }

  /** An array with children. */
  lemma WholeArray(t: string, items: Items, rest: string)
    requires Visible(t) && t[0] != ']' && ParseItems(t) == Some((items, rest))
    ensures ParseValue("[" + t) == Some((Arr(items), rest))
  {
    NotWord("[" + t);
    assert ("[" + t)[1..] == t && Skip(t) == t;
  }

  lemma WholeObject(blank: string, t: string, members: Members, rest: string)
    requires Blank(blank) && Starts(t, '\"') && ParseMembers(t) == Some((members, rest))
    ensures ParseValue("{" + (blank + t)) == Some((Obj(members), rest))
  {
    NotWord("{" + (blank + t));
    SkipBlank(blank, t);
    assert ("{" + (blank + t))[1..] == blank + t && Skip(t) == t;
  }

  lemma EmptyObject(blank: string, rest: string)
    requires Blank(blank)
    ensures ParseValue("{" + (blank + ("}" + rest))) == Some((Obj(NoMembers), rest))
  {
    NotWord("{" + (blank + ("}" + rest)));
    SkipBlank(blank, "}" + rest);
    assert ("{" + (blank + ("}" + rest)))[1..] == blank + ("}" + rest);
    assert Skip("}" + rest) == "}" + rest && ("}" + rest)[1..] == rest;
  }

  /** parse_object at a member: q is its name up to the closing quote, t the text of its value and all behind. */
  lemma OneMember(q: string, name: string, gap: string, t: string, v: Json, t2: string)
    requires Blank(gap) && Visible(t) && ParseValue(t) == Some((v, t2))
    requires ParseChars(q + (":" + (gap + t))) == Some((name, ":" + (gap + t)))
    ensures var all := "\"" + (q + (":" + (gap + t)));
      && (Starts(Skip(t2), '}') ==> ParseMembers(all) == Some((Member(name, v, NoMembers), Skip(t2)[1..])))
      && (Starts(Skip(t2), ',') && ParseMembers(Skip(t2)[1..]).Some? ==>
            var r := ParseMembers(Skip(t2)[1..]).value;
            ParseMembers(all) == Some((Member(name, v, r.0), r.1)))
  {
    var colon := ":" + (gap + t);
    var all := "\"" + (q + colon);
    assert Skip(all) == all && all[1..] == q + colon;
    assert Skip(colon) == colon && colon[1..] == gap + t;
    assert ParseName(all) == Some((name, gap + t));
    SkipBlank(gap, t);
    assert Skip(t) == t;
  }

  lemma MoreMembers(q: string, name: string, gap: string, t: string, v: Json, t2: string, members: Members, rest: string)
    requires Blank(gap) && Visible(t) && ParseValue(t) == Some((v, t2))
    requires ParseChars(q + (":" + (gap + t))) == Some((name, ":" + (gap + t)))
    requires Starts(Skip(t2), ',') && ParseMembers(Skip(t2)[1..]) == Some((members, rest))
    ensures ParseMembers("\"" + (q + (":" + (gap + t)))) == Some((Member(name, v, members), rest))
  {
    OneMember(q, name, gap, t, v, t2);
  }

  lemma ParsePrintedArray(items: Items, depth: nat, fmt: bool, rest: string)
    requires HoldItems(items)
    ensures ParseValue(Print(Arr(items), depth, fmt) + rest) == Some((Arr(items), rest))
    decreases items, 2
  {
    match items
    case NoItems =>
      NotWord("[]" + rest);
      assert Print(Arr(items), depth, fmt) + rest == "[]" + rest;
      assert ("[]" + rest)[1..] == "]" + rest;
      assert Skip("]" + rest) == "]" + rest && ("]" + rest)[1..] == rest;
    case Item(v, tail) =>
      var body := PrintItems(items, depth + 1, fmt) + ("]" + rest);
      assert Print(Arr(items), depth, fmt) + rest == "[" + body;
      PrintStart(v, depth + 1, fmt);
      assert body[0] == Print(v, depth + 1, fmt)[0];
      ParsePrintedItems(items, depth + 1, fmt, "", rest);
      assert "" + body == body;
      WholeArray(body, items, rest);
  }

  lemma {:induction false} ParsePrintedItems(items: Items, depth: nat, fmt: bool, blank: string, rest: string)
    requires HoldItems(items) && items.Item? && Blank(blank)
    ensures ParseItems(blank + (PrintItems(items, depth, fmt) + ("]" + rest))) == Some((items, rest))
    decreases items, 1
  {
    var v, tail := items.head, items.tail;
    var p := Print(v, depth, fmt);
    PrintStart(v, depth, fmt);
    if tail.NoItems? {
      assert PrintItems(items, depth, fmt) == p + "" == p;
      ParsePrinted(v, depth, fmt, "]" + rest);
      LastItem(blank, p, v, rest);
    } else {
      var more := PrintItems(tail, depth, fmt) + ("]" + rest);
      var gap := if fmt then " " else "";
      assert Comma(fmt) == "," + gap;
      assert PrintItems(items, depth, fmt) == p + (Comma(fmt) + PrintItems(tail, depth, fmt));
      CommaRegroup(p, gap, PrintItems(tail, depth, fmt), "]" + rest);
      ParsePrinted(v, depth, fmt, "," + (gap + more));
      ParsePrintedItems(tail, depth, fmt, gap, rest);
      MoreItems(blank, p, v, gap + more, tail, rest);
    }
  }

  lemma CommaRegroup(p: string, gap: string, more: string, end: string)
    ensures (p + (("," + gap) + more)) + end == p + ("," + (gap + (more + end)))
  {
  }

  lemma ParsePrintedObject(members: Members, depth: nat, fmt: bool, rest: string)
    requires HoldMembers(members)
    ensures ParseValue(Print(Obj(members), depth, fmt) + rest) == Some((Obj(members), rest))
    decreases members, 2
  {
    match members
    case NoMembers =>
      var blank := if fmt then "\n" + Tabs(depth - 1) else "";
      assert Print(Obj(members), depth, fmt) + rest == "{" + (blank + ("}" + rest));
      EmptyObject(blank, rest);
    case Member(name, v, more) =>
      var blank := if fmt then "\n" + Tabs(depth + 1) else "";
      var body := FromQuote(members, depth + 1, fmt, Close(depth, fmt) + rest);
      ParsePrintedMembers(members, depth, fmt, rest);
      ObjectRegroup(members, depth, fmt, rest);
      WholeObject(blank, body, members, rest);
  }

  /** The text of members from the first quote on, and an end. */
  function FromQuote(members: Members, depth: nat, fmt: bool, end: string): string
    requires members.Member?
  {
    "\"" + ((Escaped(members.name) + "\"") + (":" + ((if fmt then "\t" else "")
      + (Print(members.value, depth, fmt) + (Ending(members.rest.NoMembers?, fmt) + (PrintMembers(members.rest, depth, fmt) + end))))))
  }

  lemma MembersRegroup(members: Members, depth: nat, fmt: bool, end: string)
    requires members.Member?
    ensures PrintMembers(members, depth, fmt) + end == (if fmt then Tabs(depth) else "") + FromQuote(members, depth, fmt, end)
  {
    var blank, gap := if fmt then Tabs(depth) else "", if fmt then "\t" else "";
    var p, e, more := Print(members.value, depth, fmt), Ending(members.rest.NoMembers?, fmt), PrintMembers(members.rest, depth, fmt);
    assert (if fmt then ":\t" else ":") == ":" + gap;
    LabelRegroup(blank, Escaped(members.name), gap, p, e, more, end);
  }

  lemma LabelRegroup(blank: string, name: string, gap: string, p: string, e: string, more: string, end: string)
    ensures (blank + (("\"" + name + "\"") + (":" + gap))) + p + e + more + end
      == blank + ("\"" + ((name + "\"") + (":" + (gap + (p + (e + (more + end)))))))
  {
  }

  lemma ObjectRegroup(members: Members, depth: nat, fmt: bool, rest: string)
    requires members.Member?
    ensures Print(Obj(members), depth, fmt) + rest
      == "{" + ((if fmt then "\n" + Tabs(depth + 1) else "") + FromQuote(members, depth + 1, fmt, Close(depth, fmt) + rest))
  {
    var end, nl, tabs := Close(depth, fmt) + rest, if fmt then "\n" else "", if fmt then Tabs(depth + 1) else "";
    MembersRegroup(members, depth + 1, fmt, end);
    assert Open(fmt) == "{" + nl;
    var m, body := PrintMembers(members, depth + 1, fmt), FromQuote(members, depth + 1, fmt, end);
    ClosingRegroup(nl, tabs, m, Close(depth, fmt), rest, body);
    assert nl + tabs == if fmt then "\n" + Tabs(depth + 1) else "";
  }

  lemma ClosingRegroup(nl: string, tabs: string, m: string, c: string, rest: string, body: string)
    requires m + (c + rest) == tabs + body
    ensures ((("{" + nl) + m) + c) + rest == "{" + ((nl + tabs) + body)
  {
    assert ((("{" + nl) + m) + c) + rest == ("{" + nl) + (m + (c + rest));
  }

  lemma {:induction false} ParsePrintedMembers(members: Members, depth: nat, fmt: bool, rest: string)
    requires HoldMembers(members) && members.Member?
    ensures ParseMembers(FromQuote(members, depth + 1, fmt, Close(depth, fmt) + rest)) == Some((members, rest))
    decreases members, 1
  {
    var name, v, next := members.name, members.value, members.rest;
    var gap, p := if fmt then "\t" else "", Print(v, depth + 1, fmt);
    var t2 := Ending(next.NoMembers?, fmt) + (PrintMembers(next, depth + 1, fmt) + (Close(depth, fmt) + rest));
    var q := Escaped(name) + "\"";
    ParseQuoted(name, ":" + (gap + (p + t2)));
    PrintStart(v, depth + 1, fmt);
    EndingFollows(next, depth, fmt, rest);
    ParsePrinted(v, depth + 1, fmt, t2);
    if next.Member? {
      ParsePrintedMembers(next, depth, fmt, rest);
      ParseSkips(t2[1..]);
      MoreMembers(q, name, gap, p + t2, v, t2, next, rest);
    } else {
      OneMember(q, name, gap, p + t2, v, t2);
    }
  }

  /** What follows a member's value: a comma and the next member, or the end of the object. */
  lemma EndingFollows(next: Members, depth: nat, fmt: bool, rest: string)
    ensures var t := Ending(next.NoMembers?, fmt) + (PrintMembers(next, depth + 1, fmt) + (Close(depth, fmt) + rest));
      Follows(t)
      && (next.NoMembers? ==> Skip(t) == "}" + rest && ("}" + rest)[1..] == rest)
      && (next.Member? ==>
            Starts(t, ',') && Skip(t) == t && Skip(t[1..]) == FromQuote(next, depth + 1, fmt, Close(depth, fmt) + rest))
  {
    var end := Close(depth, fmt) + rest;
    var nl := if fmt then "\n" else "";
    if next.NoMembers? {
      assert "" + nl == nl && PrintMembers(next, depth + 1, fmt) == "" && "" + end == end;
      EndText(nl, if fmt then Tabs(depth) else "", rest);
    } else {
      MembersRegroup(next, depth + 1, fmt, end);
      NextText(nl, if fmt then Tabs(depth + 1) else "", FromQuote(next, depth + 1, fmt, end));
    }
  }

  lemma EndText(nl: string, tabs: string, rest: string)
    requires Blank(nl) && Blank(tabs)
    ensures var t := nl + ((tabs + "}") + rest);
      Follows(t) && Skip(t) == "}" + rest && ("}" + rest)[1..] == rest
  {
    var t := nl + ((tabs + "}") + rest);
    assert t == (nl + tabs) + ("}" + rest);
    SkipBlank(nl + tabs, "}" + rest);
    assert Skip("}" + rest) == "}" + rest && ("}" + rest)[1..] == rest;
    assert t[0] == if nl != "" then nl[0] else if tabs != "" then tabs[0] else '}';
  }

  lemma NextText(nl: string, tabs: string, body: string)
    requires Blank(nl) && Blank(tabs) && Starts(body, '\"')
    ensures var t := ("," + nl) + (tabs + body);
      Follows(t) && Starts(t, ',') && Skip(t) == t && Skip(t[1..]) == body
  {
    var t := ("," + nl) + (tabs + body);
    assert t[1..] == (nl + tabs) + body;
    SkipBlank(nl + tabs, body);
    assert Skip(body) == body;
  }

  /** parse_object skips white space before a name, so it may as well have been skipped before. */
  lemma ParseSkips(t: string)
    ensures ParseMembers(t) == ParseMembers(Skip(t))
  {
    SkipTwice(t);
  }

  lemma {:induction false} SkipTwice(t: string)
    ensures Skip(Skip(t)) == Skip(t)
    decreases |t|
  {
    if !Ends(t) && t[0] <= 32 as char { SkipTwice(t[1..]); }
  }

  /** cJSON_Parse of cJSON_Print or cJSON_PrintUnformatted is the original tree. */
  lemma RoundTrip(v: Json, fmt: bool, whole: bool)
    requires Holds(v)
    ensures Parse(Print(v, 0, fmt), whole) == Some(v)
  {
    ParsePrinted(v, 0, fmt, "");
    PrintStart(v, 0, fmt);
    assert Print(v, 0, fmt) + "" == Print(v, 0, fmt);
  }
}
