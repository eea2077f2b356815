/**
  What a JSON text denotes, written from the grammar of RFC 8259, and the proof that both
  forms of what cJSON prints denote the tree that was printed.
*/
module JsonGrammar {
  import opened Common
  import opened Json
  import opened JsonUtf8

  /** ws of section 2 */
  predicate Ws(t: string) {
    forall i :: 0 <= i < |t| ==> t[i] == ' ' || t[i] == '\t' || t[i] == '\n' || t[i] == '\r'
  }

  /** Section 6, for integers. */
  predicate IsDigits(t: string) {
    t != "" && (forall i :: 0 <= i < |t| ==> '0' <= t[i] <= '9') && (|t| > 1 ==> t[0] != '0')
  }

  function DigitWorth(c: char): nat {
    if c == '1' then 1 else if c == '2' then 2 else if c == '3' then 3 else if c == '4' then 4 else if c == '5' then 5
    else if c == '6' then 6 else if c == '7' then 7 else if c == '8' then 8 else if c == '9' then 9 else 0
  }

  function Worth(t: string): nat {
    if t == "" then 0 else 10 * Worth(t[..|t| - 1]) + DigitWorth(t[|t| - 1])
  }

  predicate DenotesNumber(t: string, n: int) {
    if t != "" && t[0] == '-' then IsDigits(t[1..]) && n + Worth(t[1..]) == 0 else IsDigits(t) && n == Worth(t)
  }

  /** Section 7: the short escapes. */
  predicate ShortFor(x: char, c: char) {
    || (x == '\"' && c == '\"') || (x == '\\' && c == '\\') || (x == '/' && c == '/')
    || (x == 'b' && c == 8 as char) || (x == 'f' && c == 12 as char) || (x == 'n' && c == 10 as char)
    || (x == 'r' && c == 13 as char) || (x == 't' && c == 9 as char)
  }

  /** A byte as itself or by a short escape, or all the bytes of a code point by four hexadecimal digits
      or, behind the basic plane, by those of two surrogates. */
  predicate Spells(p: string, s: string) {
    || (|p| == 1 && s == p && p[0] >= 32 as char && p[0] != '\"' && p[0] != '\\')
    || (|p| == 2 && p[0] == '\\' && |s| == 1 && ShortFor(p[1], s[0]))
    || (|p| == 6 && p[..2] == "\\u" && StandsFor(s) < 0x1_0000 && Writes(p[2..], StandsFor(s)))
    || (|p| == 12 && p[..2] == "\\u" && p[6..8] == "\\u" && 0x1_0000 <= StandsFor(s) < 0x11_0000
        && Writes(p[2..6], 0xD800 + (StandsFor(s) - 0x1_0000) / 0x400)
        && Writes(p[8..], 0xDC00 + (StandsFor(s) - 0x1_0000) % 0x400))
  }

  /** The code point whose UTF-8 the bytes are; 0x11_0000 for other bytes. */
  function StandsFor(s: string): nat {
    match Decoded(s)
    case Some((uc, rest)) => if rest == "" then uc else 0x11_0000
    case None => 0x11_0000
  }

  ghost predicate SpellsAll(t: string, s: string)
    decreases |s|
  {
    if s == "" then t == ""
    else exists k: nat, n: nat ::
      0 < k <= |t| && 0 < n <= |s| && Spells(t[..k], s[..n]) && SpellsAll(t[k..], s[n..])
  }

  ghost predicate DenotesString(t: string, s: string) {
    |t| >= 2 && t[0] == '\"' && t[|t| - 1] == '\"' && SpellsAll(t[1..|t| - 1], s)
  }

  /** Sections 3 to 5. */
  ghost predicate Denotes(t: string, v: Json)
    decreases v, 0
  {
    match v
    case Null => t == "null"
    case False => t == "false"
    case True => t == "true"
    case Num(n) => DenotesNumber(t, n)
    case Str(s) => DenotesString(t, s)
    case Arr(items) => |t| >= 2 && t[0] == '[' && t[|t| - 1] == ']' && DenotesItems(t[1..|t| - 1], items)
    case Obj(members) => |t| >= 2 && t[0] == '{' && t[|t| - 1] == '}' && DenotesMembers(t[1..|t| - 1], members)
  }

  /** A value with white space around it. */
  ghost predicate Padded(t: string, v: Json)
    decreases v, 1
  {
    exists a: nat, b: nat :: a <= b <= |t| && Ws(t[..a]) && Denotes(t[a..b], v) && Ws(t[b..])
  }

  ghost predicate PaddedName(t: string, name: string) {
    exists a: nat, b: nat :: a <= b <= |t| && Ws(t[..a]) && DenotesString(t[a..b], name) && Ws(t[b..])
  }

  /** Values separated by commas. */
  ghost predicate DenotesItems(t: string, items: Items)
    decreases items, 0
  {
    match items
    case NoItems => Ws(t)
    case Item(v, tail) =>
      if tail.NoItems? then Padded(t, v)
      else exists k: nat :: k < |t| && t[k] == ',' && Padded(t[..k], v) && DenotesItems(t[k + 1..], tail)
  }

  /** A name, a colon and a value. */
  ghost predicate DenotesMember(t: string, name: string, v: Json)
    decreases v, 2
  {
    exists k: nat :: k < |t| && t[k] == ':' && PaddedName(t[..k], name) && Padded(t[k + 1..], v)
  }

  ghost predicate DenotesMembers(t: string, members: Members)
    decreases members, 0
  {
    match members
    case NoMembers => Ws(t)
    case Member(name, v, rest) =>
      if rest.NoMembers? then DenotesMember(t, name, v)
      else exists k: nat :: k < |t| && t[k] == ',' && DenotesMember(t[..k], name, v) && DenotesMembers(t[k + 1..], rest)
  }

  // -------------------------------------------------------------- numbers, strings

  lemma DigitIs(d: nat)
    requires d < 10
    ensures '0' <= Digit(d) <= '9' && DigitWorth(Digit(d)) == d && (d > 0 ==> Digit(d) != '0')
  {
  }

  lemma OneMoreDigit(t: string, c: char)
    requires IsDigits(t) && t[0] != '0' && '0' <= c <= '9'
    ensures IsDigits(t + [c]) && Worth(t + [c]) == 10 * Worth(t) + DigitWorth(c) && (t + [c])[0] == t[0]
  {
    assert (t + [c])[..|t|] == t;
  }

  lemma {:induction false} DecimalWorth(n: nat)
    ensures IsDigits(Decimal(n)) && Worth(Decimal(n)) == n && (n > 0 ==> Decimal(n)[0] != '0')
    decreases n
  {
    DigitIs(n % 10);
    if n < 10 {
      assert [Digit(n)][..0] == "";
    } else {
      DecimalWorth(n / 10);
      OneMoreDigit(Decimal(n / 10), Digit(n % 10));
    }
  }

  lemma NumberDenotes(n: int)
    ensures DenotesNumber(PrintNumber(n), n)
  {
    DecimalWorth(if n < 0 then -n else n);
    if n < 0 { assert PrintNumber(n)[1..] == Decimal(-n); }
  }

  lemma EscapeSpells(c: char)
    ensures Spells(EscapeChar(c), [c])
  {
    if c < 32 as char {
      var d, e := c as int / 16, c as int % 16;
      assert HexDigit(d) == "0123456789abcdef"[d] && HexDigit(e) == "0123456789abcdef"[e];
      var p := ['\\', 'u', '0', '0', HexDigit(d), HexDigit(e)];
      assert p[2..] == ['0', '0', HexDigit(d), HexDigit(e)];
    }
  }

  lemma {:induction false} EscapedSpells(s: string)
    ensures SpellsAll(Escaped(s), s)
    decreases |s|
  {
    if s != "" {
      var p := EscapeChar(s[0]);
      EscapeSpells(s[0]);
      EscapedSpells(s[1..]);
      assert Escaped(s)[..|p|] == p && Escaped(s)[|p|..] == Escaped(s[1..]) && s[..1] == [s[0]];
    }
  }

  lemma QuotedDenotes(s: string)
    ensures DenotesString(Quoted(s), s)
  {
    EscapedSpells(s);
    assert Quoted(s)[1..|Quoted(s)| - 1] == Escaped(s);
  }

  // -------------------------------------------------------------------- the tree

  lemma PaddedAs(lead: string, t: string, trail: string, v: Json)
    requires Ws(lead) && Ws(trail) && Denotes(t, v)
    ensures Padded(lead + t + trail, v)
  {
    var u, a := lead + t + trail, |lead|;
    var b := a + |t|;
    assert u[..a] == lead && u[a..b] == t && u[b..] == trail;
  }

  lemma PaddedNameAs(lead: string, t: string, name: string)
    requires Ws(lead) && DenotesString(t, name)
    ensures PaddedName(lead + t, name)
  {
    var u, a := lead + t, |lead|;
    assert u[..a] == lead && u[a..|u|] == t && u[|u|..] == "";
  }

  lemma ItemsSplit(t: string, first: string, rest: string, v: Json, tail: Items)
    requires t == first + "," + rest && tail.Item? && Padded(first, v) && DenotesItems(rest, tail)
    ensures DenotesItems(t, Item(v, tail))
  {
    var k := |first|;
    assert t[..k] == first && t[k] == ',' && t[k + 1..] == rest;
  }

  lemma MembersSplit(t: string, first: string, more: string, name: string, v: Json, rest: Members)
    requires t == first + "," + more && rest.Member? && DenotesMember(first, name, v) && DenotesMembers(more, rest)
    ensures DenotesMembers(t, Member(name, v, rest))
  {
    var k := |first|;
    assert t[..k] == first && t[k] == ',' && t[k + 1..] == more;
  }

  lemma MemberSplit(front: string, first: string, second: string, name: string, v: Json)
    requires front == first + ":" && PaddedName(first, name) && Padded(second, v)
    ensures DenotesMember(front + second, name, v)
  {
    var t, k := front + second, |first|;
    assert t[..k] == first && t[k] == ':' && t[k + 1..] == second;
  }

  lemma MemberAs(lead: string, name: string, blank: string, p: string, trail: string, v: Json)
    requires Ws(lead) && Ws(blank) && Ws(trail) && Denotes(p, v)
    ensures DenotesMember(lead + Quoted(name) + ":" + (blank + p + trail), name, v)
  {
    QuotedDenotes(name);
    PaddedNameAs(lead, Quoted(name), name);
    PaddedAs(blank, p, trail, v);
    MemberSplit(lead + Quoted(name) + ":", lead + Quoted(name), blank + p + trail, name, v);
  }

  lemma ArrayAs(body: string, items: Items)
    requires DenotesItems(body, items)
    ensures Denotes("[" + body + "]", Arr(items))
  {
    var t := "[" + body + "]";
    assert t[1..|t| - 1] == body;
  }

  lemma ObjectAs(body: string, members: Members)
    requires DenotesMembers(body, members)
    ensures Denotes("{" + body + "}", Obj(members))
  {
    var t := "{" + body + "}";
    assert t[1..|t| - 1] == body;
  }

  lemma BracesRegroup(lead: string, body: string, trail: string)
    ensures ("{" + lead) + body + (trail + "}") == "{" + (lead + body + trail) + "}"
  {
  }

  lemma ObjectText(members: Members, depth: nat, fmt: bool, lead: string, trail: string)
    requires members.Member? && lead == (if fmt then "\n" else "") && trail == if fmt then Tabs(depth) else ""
    ensures Print(Obj(members), depth, fmt) == "{" + (lead + PrintMembers(members, depth + 1, fmt) + trail) + "}"
  {
    assert Open(fmt) == "{" + lead && Close(depth, fmt) == trail + "}";
    BracesRegroup(lead, PrintMembers(members, depth + 1, fmt), trail);
  }

  /** What is printed, formatted or not and at any depth, is a JSON text for the tree. */
  lemma {:induction false} PrintDenotes(v: Json, depth: nat, fmt: bool)
    ensures Denotes(Print(v, depth, fmt), v)
    decreases v, 1
  {
    match v
    case Num(n) => NumberDenotes(n);
    case Str(s) => QuotedDenotes(s);
    case Arr(items) =>
      ItemsDenote(items, depth + 1, fmt, "");
      assert "" + PrintItems(items, depth + 1, fmt) == PrintItems(items, depth + 1, fmt);
      ArrayAs(PrintItems(items, depth + 1, fmt), items);
    case Obj(members) =>
      if members.Member? {
        var lead, trail := if fmt then "\n" else "", if fmt then Tabs(depth) else "";
        MembersDenote(members, depth + 1, fmt, lead, trail);
        ObjectAs(lead + PrintMembers(members, depth + 1, fmt) + trail, members);
        ObjectText(members, depth, fmt, lead, trail);
      } else {
        var blank := if fmt then "\n" + Tabs(depth - 1) else "";
        ObjectAs(blank, members);
        assert Print(v, depth, fmt) == "{" + blank + "}";
      }
    case _ =>
  }

  lemma ItemsText(items: Items, depth: nat, fmt: bool, lead: string)
    requires items.Item?
    ensures var p, more := lead + Print(items.head, depth, fmt), PrintItems(items.tail, depth, fmt);
      lead + PrintItems(items, depth, fmt) == if items.tail.NoItems? then p else p + "," + ((if fmt then " " else "") + more)
  {
    var p, more := Print(items.head, depth, fmt), PrintItems(items.tail, depth, fmt);
    assert Comma(fmt) + more == "," + ((if fmt then " " else "") + more);
    assert p + "" == p;
  }

  lemma {:induction false} ItemsDenote(items: Items, depth: nat, fmt: bool, lead: string)
    requires Ws(lead)
    ensures DenotesItems(lead + PrintItems(items, depth, fmt), items)
    decreases items, 0
  {
    if items.Item? {
      var p := Print(items.head, depth, fmt);
      PrintDenotes(items.head, depth, fmt);
      PaddedAs(lead, p, "", items.head);
      assert lead + p + "" == lead + p;
      ItemsText(items, depth, fmt, lead);
      if items.tail.Item? {
        var blank, more := if fmt then " " else "", PrintItems(items.tail, depth, fmt);
        ItemsDenote(items.tail, depth, fmt, blank);
        ItemsSplit(lead + PrintItems(items, depth, fmt), lead + p, blank + more, items.head, items.tail);
      }
    }
  }

  lemma LastRegroup(lead: string, front: string, blank: string, p: string, nl: string, trail: string)
    ensures lead + ((front + blank) + p + nl + "") + trail == lead + front + (blank + p + (nl + trail))
  {
  }

  lemma NextRegroup(lead: string, front: string, blank: string, p: string, nl: string, more: string, trail: string)
    ensures lead + ((front + blank) + p + ("," + nl) + more) + trail
      == lead + front + (blank + p + "") + "," + (nl + more + trail)
  {
    var a := lead + front + (blank + p + "") + ",";
    assert lead + ((front + blank) + p + ("," + nl) + more) + trail == a + nl + more + trail;
  }

  lemma LabelText(name: string, depth: nat, fmt: bool, tabs: string, blank: string)
    requires tabs == (if fmt then Tabs(depth) else "") && blank == if fmt then "\t" else ""
    ensures Label(name, depth, fmt) == (tabs + Quoted(name) + ":") + blank
  {
  }

  lemma FrontRegroup(lead: string, tabs: string, q: string)
    ensures lead + (tabs + q + ":") == (lead + tabs) + q + ":"
  {
  }

  lemma MembersText(members: Members, depth: nat, fmt: bool, lead: string, trail: string, tabs: string, blank: string, nl: string)
    requires members.Member? && tabs == (if fmt then Tabs(depth) else "") && blank == (if fmt then "\t" else "")
    requires nl == if fmt then "\n" else ""
    ensures var p, more := Print(members.value, depth, fmt), PrintMembers(members.rest, depth, fmt);
      var front := (lead + tabs) + Quoted(members.name) + ":";
      lead + PrintMembers(members, depth, fmt) + trail ==
        if members.rest.NoMembers? then front + (blank + p + (nl + trail))
        else front + (blank + p + "") + "," + (nl + more + trail)
  {
    var p, more := Print(members.value, depth, fmt), PrintMembers(members.rest, depth, fmt);
    var front := tabs + Quoted(members.name) + ":";
    LabelText(members.name, depth, fmt, tabs, blank);
    FrontRegroup(lead, tabs, Quoted(members.name));
    if members.rest.NoMembers? {
      assert "" + nl == nl;
      LastRegroup(lead, front, blank, p, nl, trail);
    } else {
      NextRegroup(lead, front, blank, p, nl, more, trail);
    }
  }

  lemma WsBoth(a: string, b: string)
    requires Ws(a) && Ws(b)
    ensures Ws(a + b)
  {
  }

  lemma {:induction false} MembersDenote(members: Members, depth: nat, fmt: bool, lead: string, trail: string)
    requires members.Member? && Ws(lead) && Ws(trail)
    ensures DenotesMembers(lead + PrintMembers(members, depth, fmt) + trail, members)
    decreases members, 0
  {
    var Member(name, v, rest) := members;
    var t := lead + PrintMembers(members, depth, fmt) + trail;
    var p, more := Print(v, depth, fmt), PrintMembers(rest, depth, fmt);
    var tabs, blank, nl := if fmt then Tabs(depth) else "", if fmt then "\t" else "", if fmt then "\n" else "";
    PrintDenotes(v, depth, fmt);
    MembersText(members, depth, fmt, lead, trail, tabs, blank, nl);
    WsBoth(lead, tabs);
    if rest.NoMembers? {
      WsBoth(nl, trail);
      MemberAs(lead + tabs, name, blank, p, nl + trail, v);
    } else {
      MemberAs(lead + tabs, name, blank, p, "", v);
      MembersDenote(rest, depth, fmt, nl, trail);
      MembersSplit(t, (lead + tabs) + Quoted(name) + ":" + (blank + p + ""), nl + more + trail, name, v, rest);
    }
  }

  // ------------------------------------------------------------ what the parser reads

  /** Every short escape is read as the character it stands for. */
  lemma ShortEscapeParses(x: char, c: char, rest: string)
    requires ShortFor(x, c)
    ensures ParseChars("\\" + [x] + rest) == Prepend([c], ParseChars(rest))
  {
    var t := "\\" + [x] + rest;
    assert t[1..] == [x] + rest && t[2..] == rest && !Ends(t[1..]);
    assert Unescape(x) == c;
  }

  /** White space before a value does not matter. */
  lemma {:induction false} WsSkipped(w: string, rest: string)
    requires Ws(w)
    ensures Skip(w + rest) == Skip(rest)
    decreases |w|
  {
    if w == "" {
      assert w + rest == rest;
    } else {
      assert (w + rest)[1..] == w[1..] + rest;
      WsSkipped(w[1..], rest);
    }
  }

  // ------------------------------------------------------------------------ layout

  lemma ArrayText(body: string)
    ensures "[" + (body + "") + "]" == "[" + body + "]"
  {
    assert body + "" == body;
  }

  /** Values of an array are separated by a comma, and a space if formatted. */
  lemma ArrayLayout(v: Json, w: Json, depth: nat, fmt: bool)
    ensures Print(Arr(NoItems), depth, fmt) == "[]"
    ensures Print(Arr(Item(v, Item(w, NoItems))), depth, fmt)
      == "[" + (Print(v, depth + 1, fmt) + ((if fmt then ", " else ",") + Print(w, depth + 1, fmt))) + "]"
  {
    var q := Print(w, depth + 1, fmt);
    assert q + "" == q;
    assert PrintItems(Item(w, NoItems), depth + 1, fmt) == q;
  }

  /** Members of an object follow each other with a colon and a comma and nothing else. */
  lemma CompactLayout(n: string, v: Json, m: string, w: Json, depth: nat)
    ensures Print(Obj(Member(n, v, Member(m, w, NoMembers))), depth, false)
      == "{" + (Quoted(n) + ":" + Print(v, depth + 1, false) + "," + (Quoted(m) + ":" + Print(w, depth + 1, false))) + "}"
  {
    var rest := Member(m, w, NoMembers);
    var p, q := Print(v, depth + 1, false), Print(w, depth + 1, false);
    ObjectText(Member(n, v, rest), depth, false, "", "");
    MembersText(Member(n, v, rest), depth + 1, false, "", "", "", "", "");
    MembersText(rest, depth + 1, false, "", "", "", "", "");
    Plain(Quoted(n), p);
    Plain(Quoted(m), q);
  }

  lemma Plain(n: string, p: string)
    ensures ("" + "") + n + ":" + ("" + p + "") == n + ":" + p && ("" + "") + n + ":" + ("" + p + ("" + "")) == n + ":" + p
  {
  }

  /** A line feed, the tabs, the name, a colon, a tab and the value. */
  function MemberLine(n: string, v: Json, depth: nat): string {
    "\n" + Tabs(depth) + Quoted(n) + ":" + ("\t" + Print(v, depth, true))
  }

  lemma LineRegroup(front: string, p: string, trail: string)
    ensures front + ("\t" + p + trail) == front + ("\t" + p) + trail
  {
  }

  /** Formatted, each member stands on a line of its own, indented by as many tabs as it is deep, with a tab
      behind the colon. */
  lemma LineOf(members: Members, depth: nat, trail: string)
    requires members.Member?
    ensures var line, more := MemberLine(members.name, members.value, depth), PrintMembers(members.rest, depth, true);
      "\n" + PrintMembers(members, depth, true) + trail
        == if members.rest.NoMembers? then line + ("\n" + trail) else line + "" + "," + ("\n" + more + trail)
  {
    var p, tabs := Print(members.value, depth, true), Tabs(depth);
    MembersText(members, depth, true, "\n", trail, tabs, "\t", "\n");
    LineRegroup("\n" + tabs + Quoted(members.name) + ":", p, if members.rest.NoMembers? then "\n" + trail else "");
  }

  /** So an object is laid out as its lines, and below them its closing brace, indented by one tab less. */
  lemma FormattedLayout(n: string, v: Json, m: string, w: Json, depth: nat)
    ensures Print(Obj(Member(n, v, Member(m, w, NoMembers))), depth, true)
      == "{" + (MemberLine(n, v, depth + 1) + "" + "," + (MemberLine(m, w, depth + 1) + ("\n" + Tabs(depth)))) + "}"
  {
    var rest := Member(m, w, NoMembers);
    ObjectText(Member(n, v, rest), depth, true, "\n", Tabs(depth));
    LineOf(Member(n, v, rest), depth + 1, Tabs(depth));
    LineOf(rest, depth + 1, Tabs(depth));
  }
}
