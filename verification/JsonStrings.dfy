/**
  The printer of cJSON.c without a buffer: children are printed to strings of their own,
  then copied together.  Array indices are checked, so these methods also show that the
  sizes computed in advance suffice.
*/
module JsonStrings {
  import opened Json
  import opened JsonBuffer

  /** The texts of all children. */
  function Texts(items: Items, depth: nat, fmt: bool): seq<string> {
    match items
    case NoItems => []
    case Item(v, tail) => [Print(v, depth, fmt)] + Texts(tail, depth, fmt)
  }

  /** The children's texts with separators between them. */
  function Joined(es: seq<string>, fmt: bool): string
    decreases |es|
  {
    if es == [] then "" else es[0] + if |es| == 1 then "" else Comma(fmt) + Joined(es[1..], fmt)
  }

  lemma {:induction false} JoinedTexts(items: Items, depth: nat, fmt: bool)
    ensures Joined(Texts(items, depth, fmt), fmt) == PrintItems(items, depth, fmt)
    ensures |Texts(items, depth, fmt)| == 0 <==> items.NoItems?
    decreases items
  {
    match items
    case NoItems =>
    case Item(v, tail) =>
      JoinedTexts(tail, depth, fmt);
      assert Texts(items, depth, fmt)[1..] == Texts(tail, depth, fmt);
  }

  /** What print_array adds up for the children. */
  function ArrayRoom(es: seq<string>, fmt: bool): nat
    decreases |es|
  {
    if es == [] then 0 else |es[0]| + 2 + (if fmt then 1 else 0) + ArrayRoom(es[1..], fmt)
  }

  lemma {:induction false} ArrayRoomAppend(es: seq<string>, e: string, fmt: bool)
    ensures ArrayRoom(es + [e], fmt) == ArrayRoom(es, fmt) + |e| + 2 + (if fmt then 1 else 0)
    decreases |es|
  {
    if es == [] {
      assert es + [e] == [e] && [e][1..] == [];
    } else {
      assert (es + [e])[1..] == es[1..] + [e];
      ArrayRoomAppend(es[1..], e, fmt);
    }
  }

  datatype Entry = Entry(name: string, text: string)

  /** Printed names and values of all members. */
  function Entries(members: Members, depth: nat, fmt: bool): seq<Entry> {
    match members
    case NoMembers => []
    case Member(name, v, rest) => [Entry(Quoted(name), Print(v, depth, fmt))] + Entries(rest, depth, fmt)
  }

  /** One line of an object. */
  function Line(e: Entry, last: bool, depth: nat, fmt: bool): string {
    (if fmt then Tabs(depth) else "") + e.name + (if fmt then ":\t" else ":") + e.text + Ending(last, fmt)
  }

  function Lines(es: seq<Entry>, depth: nat, fmt: bool): string
    decreases |es|
  {
    if es == [] then "" else Line(es[0], |es| == 1, depth, fmt) + Lines(es[1..], depth, fmt)
  }

  lemma {:induction false} LinesOfEntries(members: Members, depth: nat, fmt: bool)
    ensures Lines(Entries(members, depth, fmt), depth, fmt) == PrintMembers(members, depth, fmt)
    ensures |Entries(members, depth, fmt)| == 0 <==> members.NoMembers?
    decreases members
  {
    match members
    case NoMembers =>
    case Member(name, v, rest) =>
      LinesOfEntries(rest, depth, fmt);
      var es := Entries(members, depth, fmt);
      assert es[1..] == Entries(rest, depth, fmt);
      LineText(if fmt then Tabs(depth) else "", Quoted(name), if fmt then ":\t" else ":", Print(v, depth, fmt),
               Ending(rest.NoMembers?, fmt));
  }

  lemma LineText(tabs: string, q: string, colon: string, p: string, e: string)
    ensures tabs + q + colon + p + e == (tabs + (q + colon)) + p + e
  {
  }

  /** What print_object adds up for the members. */
  function ObjectRoom(es: seq<Entry>, depth: nat, fmt: bool): nat
    decreases |es|
  {
    if es == [] then 0
    else |es[0].text| + |es[0].name| + 2 + (if fmt then 2 + depth else 0) + ObjectRoom(es[1..], depth, fmt)
  }

  lemma {:induction false} ObjectRoomAppend(es: seq<Entry>, e: Entry, depth: nat, fmt: bool)
    ensures ObjectRoom(es + [e], depth, fmt)
      == ObjectRoom(es, depth, fmt) + |e.text| + |e.name| + 2 + (if fmt then 2 + depth else 0)
    decreases |es|
  {
    if es == [] {
      assert es + [e] == [e] && [e][1..] == [];
    } else {
      assert (es + [e])[1..] == es[1..] + [e];
      ObjectRoomAppend(es[1..], e, depth, fmt);
    }
  }

  /** print_value without a buffer: the C string it returns */
  method PrintText(v: Json, depth: nat, fmt: bool) returns (s: string)
    requires Holds(v)
    ensures s == Print(v, depth, fmt)
    decreases Size(v), 0
  {
    match v
    case Null => s := "null";
    case False => s := "false";
    case True => s := "true";
    case Num(n) => s := NumberText(n);
    case Str(t) => s := StringText(t);
    case Arr(items) =>
      if items.NoItems? {
        s := "[]";
        assert "[" + PrintItems(items, depth + 1, fmt) + "]" == "[]";
      } else {
        s := ArrayText(items, depth, fmt);
      }
    case Obj(members) =>
      if members.NoMembers? {
        s := EmptyText(depth, fmt);
      } else {
        s := ObjectText(members, depth, fmt);
      }
  }

  method NumberText(n: int) returns (s: string)
    requires INT_MIN <= n <= INT_MAX
    ensures s == PrintNumber(n)
  {
    if n == 0 {
      s := "0";
      assert PrintNumber(0) == [Digit(0)] == "0";
    } else {
      NumberSize(n);
      var out := new char[21];
      assert out[..0] == "" && "" + (PrintNumber(n) + "\0") == PrintNumber(n) + "\0";
      Put(out, 0, PrintNumber(n) + "\0", "");
      s := out[..|PrintNumber(n)|];
      assert PrintNumber(n) == (PrintNumber(n) + "\0")[..|PrintNumber(n)|];
    }
  }

  method StringText(t: string) returns (s: string)
    requires NoNul(t)
    ensures s == Quoted(t)
  {
    var flag, len := Measure(t);
    var out := new char[len + 3];
    assert out[..0] == "" && "" + (Quoted(t) + "\0") == Quoted(t) + "\0";
    PutQuoted(out, 0, t, flag, "");
    s := out[..len + 2];
    assert Quoted(t) == (Quoted(t) + "\0")[..len + 2];
  }

  method EmptyText(depth: nat, fmt: bool) returns (s: string)
    ensures s == Print(Obj(NoMembers), depth, fmt)
  {
    var out := new char[if fmt then depth + 4 else 3];
    var text := (if fmt then "{\n" + Tabs(depth - 1) else "{") + "}";
    assert out[..0] == "" && "" + (text + "\0") == text + "\0";
    Put(out, 0, text + "\0", "");
    s := out[..|text|];
    assert text == (text + "\0")[..|text|];
  }

  /** print_array without a buffer, at least one child */
  method ArrayText(items: Items, depth: nat, fmt: bool) returns (s: string)
    requires HoldItems(items) && items.Item?
    ensures s == Print(Arr(items), depth, fmt)
    decreases SizeItems(items), 1
  {
    var entries, len, child := [], 5, items;
    while child.Item?
      invariant HoldItems(child) && SizeItems(child) <= SizeItems(items)
      invariant entries + Texts(child, depth + 1, fmt) == Texts(items, depth + 1, fmt)
      invariant len == 5 + ArrayRoom(entries, fmt)
      decreases child
    {
      var ret := PrintText(child.head, depth + 1, fmt);
      ArrayRoomAppend(entries, ret, fmt);
      assert entries + Texts(child, depth + 1, fmt) == (entries + [ret]) + Texts(child.tail, depth + 1, fmt);
      entries := entries + [ret];
      len := len + |ret| + 2 + if fmt then 1 else 0;
      child := child.tail;
    }
    assert entries == Texts(items, depth + 1, fmt);
    JoinedTexts(items, depth + 1, fmt);
    s := Compose(entries, fmt, len);
  }

  /** The second half of print_array: copy the children's texts together. */
  method Compose(entries: seq<string>, fmt: bool, len: nat) returns (s: string)
    requires len == 5 + ArrayRoom(entries, fmt) && entries != []
    ensures s == "[" + Joined(entries, fmt) + "]"
  {
    var out := new char[len];
    var pos, i: nat := 1, 0;
    assert out[..0] == "" && "" + "[" == "[";
    Put(out, 0, "[", "");
    ghost var done, all := "[", "[" + Joined(entries, fmt);
    assert entries[0..] == entries;
    while i < |entries|
      invariant i <= |entries| && Has(out, done) && pos == |done| && all == done + Joined(entries[i..], fmt)
      invariant pos + ArrayRoom(entries[i..], fmt) + 4 <= len == out.Length
      decreases |entries| - i
    {
      ghost var rest := entries[i..];
      assert rest[1..] == entries[i + 1..] && rest[0] == entries[i];
      ComposeStep(done, rest, fmt);
      Put(out, pos, entries[i], done);
      pos, done := pos + |entries[i]|, done + entries[i];
      if i != |entries| - 1 {
        Put(out, pos, Comma(fmt), done);
        pos, done := pos + |Comma(fmt)|, done + Comma(fmt);
        out[pos] := '\0';
      }
      i := i + 1;
    }
    assert all == done + "" == done;
    Put(out, pos, "]\0", done);
    s := out[..pos + 1];
    assert s == (done + "]\0")[..pos + 1] == done + "]";
  }

  lemma ComposeStep(done: string, es: seq<string>, fmt: bool)
    requires es != []
    ensures done + Joined(es, fmt)
      == if |es| == 1 then done + es[0] else (done + es[0] + Comma(fmt)) + Joined(es[1..], fmt)
  {
    if |es| == 1 {
      assert es[0] + "" == es[0];
    } else {
      ItemText(done, es[0], Comma(fmt), Joined(es[1..], fmt));
    }
  }

  /** print_object without a buffer, at least one member */
  method ObjectText(members: Members, depth: nat, fmt: bool) returns (s: string)
    requires HoldMembers(members) && members.Member?
    ensures s == Print(Obj(members), depth, fmt)
    decreases SizeMembers(members), 2
  {
    var entries, len := MemberTexts(members, depth + 1, fmt);
    LinesOfEntries(members, depth + 1, fmt);
    s := ComposeLines(entries, depth, fmt, len);
  }

  /** The first half of print_object: print names and values, and add up their sizes. */
  method MemberTexts(members: Members, inner: nat, fmt: bool) returns (entries: seq<Entry>, len: nat)
    requires HoldMembers(members)
    ensures entries == Entries(members, inner, fmt)
    ensures len == 7 + (if fmt then inner else 0) + ObjectRoom(entries, inner, fmt)
    decreases SizeMembers(members), 1
  {
    var child := members;
    entries, len := [], 7 + if fmt then inner else 0;
    while child.Member?
      invariant HoldMembers(child) && SizeMembers(child) <= SizeMembers(members)
      invariant entries + Entries(child, inner, fmt) == Entries(members, inner, fmt)
      invariant len == 7 + (if fmt then inner else 0) + ObjectRoom(entries, inner, fmt)
      decreases child
    {
      var str := StringText(child.name);
      var ret := PrintText(child.value, inner, fmt);
      EntryNext(entries, child, inner, fmt);
      entries := entries + [Entry(str, ret)];
      len := len + |ret| + |str| + 2 + if fmt then 2 + inner else 0;
      child := child.rest;
    }
  }

  lemma EntryNext(entries: seq<Entry>, child: Members, inner: nat, fmt: bool)
    requires child.Member?
    ensures var e := Entry(Quoted(child.name), Print(child.value, inner, fmt));
      && entries + Entries(child, inner, fmt) == (entries + [e]) + Entries(child.rest, inner, fmt)
      && ObjectRoom(entries + [e], inner, fmt)
         == ObjectRoom(entries, inner, fmt) + |e.text| + |e.name| + 2 + (if fmt then 2 + inner else 0)
  {
    var e := Entry(Quoted(child.name), Print(child.value, inner, fmt));
    ObjectRoomAppend(entries, e, inner, fmt);
    var more := Entries(child.rest, inner, fmt);
    assert entries + ([e] + more) == (entries + [e]) + more;
  }

  /** The second half of print_object. */
  method ComposeLines(entries: seq<Entry>, depth: nat, fmt: bool, len: nat) returns (s: string)
    requires len == 7 + (if fmt then depth + 1 else 0) + ObjectRoom(entries, depth + 1, fmt) && entries != []
    ensures s == Open(fmt) + Lines(entries, depth + 1, fmt) + Close(depth, fmt)
  {
    var out := new char[len];
    assert out[..0] == "" && "" + Open(fmt) == Open(fmt);
    Put(out, 0, Open(fmt), "");
    out[|Open(fmt)|] := '\0';
    var pos := PutLines(out, |Open(fmt)|, entries, depth + 1, fmt, Open(fmt));
    var end := Close(depth, fmt) + "\0";
    ghost var done := Open(fmt) + Lines(entries, depth + 1, fmt);
    Put(out, pos, end, done);
    s := out[..pos + |end| - 1];
    CutNul(done, Close(depth, fmt));
  }

  /** The loop over the members. */
  method PutLines(out: array<char>, at: nat, entries: seq<Entry>, depth: nat, fmt: bool, ghost before: string) returns (pos: nat)
    requires Has(out, before) && at == |before| && at + ObjectRoom(entries, depth, fmt) < out.Length
    modifies out
    ensures Has(out, before + Lines(entries, depth, fmt)) && pos == at + |Lines(entries, depth, fmt)|
    ensures pos <= at + ObjectRoom(entries, depth, fmt)
  {
    var i: nat := 0;
    pos := at;
    ghost var done, all := before, before + Lines(entries, depth, fmt);
    assert entries[0..] == entries;
    while i < |entries|
      invariant i <= |entries| && Has(out, done) && pos == |done| && all == done + Lines(entries[i..], depth, fmt)
      invariant pos + ObjectRoom(entries[i..], depth, fmt) <= at + ObjectRoom(entries, depth, fmt) < out.Length
      decreases |entries| - i
    {
      var last := i == |entries| - 1;
      LinesNext(done, entries, i, depth, fmt);
      PutLine(out, pos, entries[i], last, depth, fmt, done);
      done := done + Line(entries[i], last, depth, fmt);
      pos := pos + LineSize(entries[i], last, depth, fmt);
      i := i + 1;
    }
    assert all == done + "" == done;
  }

  function LineSize(e: Entry, last: bool, depth: nat, fmt: bool): (n: nat)
    ensures n == |Line(e, last, depth, fmt)| <= |e.text| + |e.name| + 2 + if fmt then 2 + depth else 0
  {
    (if fmt then depth + 2 else 0) + |e.name| + 1 + |e.text| + if last then 0 else 1
  }

  lemma LinesNext(done: string, entries: seq<Entry>, i: nat, depth: nat, fmt: bool)
    requires i < |entries|
    ensures var line := Line(entries[i], i == |entries| - 1, depth, fmt);
      && done + Lines(entries[i..], depth, fmt) == (done + line) + Lines(entries[i + 1..], depth, fmt)
      && ObjectRoom(entries[i..], depth, fmt) >= |line| + ObjectRoom(entries[i + 1..], depth, fmt)
  {
    var rest := entries[i..];
    assert rest[1..] == entries[i + 1..] && rest[0] == entries[i];
    Regroup(done, Line(rest[0], |rest| == 1, depth, fmt), Lines(rest[1..], depth, fmt));
    assert LineSize(rest[0], |rest| == 1, depth, fmt) == |Line(rest[0], |rest| == 1, depth, fmt)|;
  }

  lemma CutNul(done: string, close: string)
    ensures (done + (close + "\0"))[..|done| + |close|] == done + close
  {
  }

  /** One turn of the loop that composes an object; the line is followed by a NUL. */
  method PutLine(out: array<char>, at: nat, e: Entry, last: bool, depth: nat, fmt: bool, ghost done: string)
    requires Has(out, done) && at == |done| && at + |Line(e, last, depth, fmt)| < out.Length
    modifies out
    ensures Has(out, done + Line(e, last, depth, fmt))
  {
    ghost var all := done + Line(e, last, depth, fmt);
    var tabs, colon, ending := if fmt then Tabs(depth) else "", if fmt then ":\t" else ":", Ending(last, fmt);
    var pos := at;
    Put(out, pos, tabs, done);
    pos := pos + |tabs|;
    Put(out, pos, e.name, done + tabs);
    pos := pos + |e.name|;
    Put(out, pos, colon, done + tabs + e.name);
    pos := pos + |colon|;
    Put(out, pos, e.text, done + tabs + e.name + colon);
    pos := pos + |e.text|;
    Put(out, pos, ending, done + tabs + e.name + colon + e.text);
    pos := pos + |ending|;
    LineParts(done, tabs, e.name, colon, e.text, ending);
    out[pos] := '\0';
  }

  lemma LineParts(done: string, tabs: string, q: string, colon: string, p: string, e: string)
    ensures done + tabs + q + colon + p + e == done + (tabs + q + colon + p + e)
  {
  }

  /** The two printers agree: the buffer holds the string of the other and its NUL. */
  method PrintBothWays(v: Json, prebuffer: nat, fmt: bool) returns (out: array<char>, s: string)
    requires Holds(v)
    ensures |s| < out.Length && out[..|s|] == s && out[|s|] == '\0' && NoNul(s)
    ensures Parse(s, true).Some? && Parse(s, true).value == v
  {
    s := PrintText(v, 0, fmt);
    out := PrintBuffered(v, prebuffer, fmt);
    PrintNoNul(v, 0, fmt);
    assert out[..|s|] == out[..|s| + 1][..|s|] == (s + "\0")[..|s|] == s;
    assert out[|s|] == out[..|s| + 1][|s|];
    RoundTrip(v, fmt, true);
  }
}
