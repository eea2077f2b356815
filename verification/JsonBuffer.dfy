/**
  The two printers of cJSON.c.  The buffered one writes into one growing buffer, asking
  for room with `ensure` and measuring with `update`; the other prints every child into
  a string of its own and copies these together in a string whose size it computes
  first.  Both print the text that Json.dfy specifies, and neither writes outside what
  it allocated.  Allocations are assumed to succeed.
*/
module JsonBuffer {
  import opened Json

  // --------------------------------------------------------------------- pow2gt

  /** The shifts of pow2gt copy the highest bit to all bits below it. */
  function Smear(y: bv32): bv32 {
    var b := y | (y >> 1);
    var c := b | (b >> 2);
    var d := c | (c >> 4);
    var e := d | (d >> 8);
    e | (e >> 16)
  }

  /** pow2gt as it is computed, on 32-bit words. */
  function Smeared(x: bv32): bv32 {
    Smear(x - 1) + 1
  }

  /** It is the least power of two that is not below x. */
  lemma SmearedIsLeastPower(x: bv32)
    requires 0 < x <= 0x4000_0000
    ensures Smeared(x) & (Smeared(x) - 1) == 0 && Smeared(x) >= x && Smeared(x) >> 1 < x
  {
    var y := x - 1;
    assert y < 0x4000_0000;
  }

  /** The same on numbers: the least of p, 2p, 4p, .. that is not below x. */
  function Pow2gt(x: nat, p: nat): (y: nat)
    requires p > 0
    ensures y >= x && y >= p && (y == p || y < 2 * x)
    decreases if x > p then x - p else 0
  {
    if p >= x then p else Pow2gt(x, 2 * p)
  }

  lemma {:induction false} Pow2gtDoubles(m: nat, odd: nat, p: nat)
    requires p > 0 && odd <= 1
    ensures Pow2gt(2 * m + odd + 1, 2 * p) == 2 * Pow2gt(m + 1, p)
    decreases if m + 1 > p then m + 1 - p else 0
  {
    if p < m + 1 { Pow2gtDoubles(m, odd, 2 * p); }
  }

  lemma EvenWord(h: bv32)
    requires h <= 0x7fff_ffff
    ensures (h << 1) as nat == 2 * (h as nat)
  {
  }

  lemma OddWord(h: bv32)
    requires h <= 0x7fff_ffff
    ensures ((h << 1) | 1) as nat == 2 * (h as nat) + 1
  {
  }

  /** The bits of y are those of h and one more. */
  predicate Twice(y: bv32, h: bv32, odd: bool) {
    h <= 0x7fff_ffff && y == if odd then (h << 1) | 1 else h << 1
  }

  lemma TwiceNumber(y: bv32, h: bv32, odd: bool)
    requires Twice(y, h, odd)
    ensures y as nat == 2 * (h as nat) + if odd then 1 else 0
  {
    if odd { OddWord(h); } else { EvenWord(h); }
  }

  lemma Halves(y: bv32, h: bv32)
    requires h == y >> 1
    ensures Twice(y, h, false) || Twice(y, h, true)
  {
  }

  lemma SmallHalf(y: bv32, h: bv32)
    requires h == y >> 1 && y <= 0x3fff_ffff
    ensures h <= 0x3fff_ffff
  {
  }

  lemma Half(y: bv32) returns (h: bv32, odd: bool)
    requires y <= 0x3fff_ffff
    ensures Twice(y, h, odd) && h <= 0x3fff_ffff
  {
    h := y >> 1;
    Halves(y, h);
    SmallHalf(y, h);
    odd := Twice(y, h, true);
  }

  lemma HalfIsLess(y: bv32, h: bv32, odd: bool)
    requires Twice(y, h, odd)
    ensures y != 0 ==> h as nat < y as nat
  {
    TwiceNumber(y, h, odd);
  }

  predicate Next(y: bv32, z: bv32) {
    y <= 0x3fff_ffff && z == y + 1
  }

  lemma NextOfEven(y: bv32, z: bv32, h: bv32)
    requires Next(y, z) && Twice(y, h, false)
    ensures Twice(z, h, true)
  {
  }

  lemma NextOfOdd(y: bv32, z: bv32, h: bv32) returns (k: bv32)
    requires Next(y, z) && Twice(y, h, true) && h <= 0x3fff_ffff
    ensures Next(h, k) && Twice(z, k, false)
  {
    k := h + 1;
  }

  lemma EvenCounts(y: bv32, z: bv32, h: bv32)
    requires Twice(y, h, false) && Twice(z, h, true)
    ensures z as nat == y as nat + 1
  {
    TwiceNumber(y, h, false);
    TwiceNumber(z, h, true);
  }

  lemma OddCounts(y: bv32, z: bv32, h: bv32, k: bv32)
    requires Twice(y, h, true) && Twice(z, k, false) && k as nat == h as nat + 1
    ensures z as nat == y as nat + 1
  {
    TwiceNumber(y, h, true);
    TwiceNumber(z, k, false);
  }

  lemma NextOfZero(z: bv32)
    requires Next(0, z)
    ensures z as nat == 1
  {
  }

  /** Below the overflow, adding 1 to a word adds 1 to the number. */
  lemma {:induction false} NextCounts(y: bv32, z: bv32)
    requires Next(y, z)
    ensures z as nat == y as nat + 1
    decreases y as nat
  {
    if y == 0 {
      NextOfZero(z);
    } else {
      var h, odd := Half(y);
      HalfIsLess(y, h, odd);
      if odd {
        var k := NextOfOdd(y, z, h);
        NextCounts(h, k);
        OddCounts(y, z, h, k);
      } else {
        NextOfEven(y, z, h);
        EvenCounts(y, z, h);
      }
    }
  }

  predicate SmearsTo(y: bv32, z: bv32) {
    y <= 0x3fff_ffff && z == Smear(y) + 1
  }

  lemma SmearOfZero(z: bv32)
    requires SmearsTo(0, z)
    ensures z as nat == 1
  {
  }

  lemma SmearTwice(y: bv32, z: bv32, h: bv32, odd: bool) returns (k: bv32)
    requires SmearsTo(y, z) && Twice(y, h, odd) && h <= 0x3fff_ffff && y != 0
    ensures SmearsTo(h, k) && Twice(z, k, false)
  {
    k := Smear(h) + 1;
  }

  lemma PowerDoubles(y: nat, z: nat, h: nat, k: nat, odd: bool)
    requires h < y == 2 * h + (if odd then 1 else 0) && z == 2 * k && k == Pow2gt(h + 1, 1)
    ensures z == Pow2gt(y + 1, 1)
  {
    Pow2gtDoubles(h, if odd then 1 else 0, 1);
  }

  lemma {:induction false} SmearIsPow2gt(y: bv32, z: bv32)
    requires SmearsTo(y, z)
    ensures z as nat == Pow2gt(y as nat + 1, 1)
    decreases y as nat
  {
    if y == 0 {
      SmearOfZero(z);
    } else {
      var h, odd := Half(y);
      HalfIsLess(y, h, odd);
      var k := SmearTwice(y, z, h, odd);
      SmearIsPow2gt(h, k);
      TwiceNumber(y, h, odd);
      TwiceNumber(z, k, false);
      PowerDoubles(y as nat, z as nat, h as nat, k as nat, odd);
    }
  }

  lemma Predecessor(x: bv32) returns (y: bv32)
    requires 0 < x <= 0x4000_0000
    ensures Next(y, x) && SmearsTo(y, Smeared(x))
  {
    y := x - 1;
  }

  /** Up to 2^30, the shifts of pow2gt compute that number. */
  lemma SmearedIsPow2gt(x: bv32)
    requires 0 < x <= 0x4000_0000
    ensures Smeared(x) as nat == Pow2gt(x as nat, 1)
  {
    var y := Predecessor(x);
    NextCounts(y, x);
    SmearIsPow2gt(y, Smeared(x));
  }

  // ------------------------------------------------------------- writing text

  /** The first characters of a are s. */
  ghost predicate Has(a: array<char>, s: string)
    reads a
  {
    |s| <= a.Length && a[..|s|] == s
  }

  /** strcpy without the NUL, or the assignments of single characters. */
  method Put(a: array<char>, at: nat, s: string, ghost before: string)
    requires Has(a, before) && at == |before| && at + |s| <= a.Length
    modifies a
    ensures Has(a, before + s)
  {
    var i := 0;
    while i < |s|
      invariant 0 <= i <= |s| && Has(a, before + s[..i])
    {
      a[at + i] := s[i];
      assert before + s[..i + 1] == before + s[..i] + [s[i]];
      i := i + 1;
    }
    assert s[..i] == s;
  }

  /** print_string_ptr: one character that may have to be escaped */
  method PutEscaped(a: array<char>, at: nat, c: char, ghost before: string) returns (next: nat)
    requires Has(a, before) && at == |before| && at + |EscapeChar(c)| <= a.Length
    modifies a
    ensures Has(a, before + EscapeChar(c)) && next == at + |EscapeChar(c)|
  {
    if c > 31 as char && c != '\"' && c != '\\' {
      Put(a, at, [c], before);
      next := at + 1;
    } else {
      var second := if c == '\\' then "\\" else if c == '\"' then "\"" else if c == BS then "b"
                    else if c == FF then "f" else if c == '\n' then "n" else if c == '\r' then "r"
                    else if c == '\t' then "t"
                    else ['u', '0', '0', HexDigit(c as int / 16), HexDigit(c as int % 16)];
      assert EscapeChar(c) == "\\" + second;
      Put(a, at, "\\" + second, before);
      next := at + 1 + |second|;
    }
  }

  predicate Special(c: char) {
    c < 32 as char || c == '\"' || c == '\\'
  }

  /** How long a character gets: one, two with a backslash, or six as a number. */
  function EscapedSize(c: char): (n: nat)
    ensures c != '\0' ==> n == |EscapeChar(c)|
  {
    if c == '\"' || c == '\\' || c == BS || c == FF || c == '\n' || c == '\r' || c == '\t' then 2
    else if c < 32 as char then 6
    else 1
  }

  lemma {:induction false} EscapedSplit(s: string, i: nat)
    requires i < |s|
    ensures Escaped(s[..i + 1]) == Escaped(s[..i]) + EscapeChar(s[i])
    decreases i
  {
    if i == 0 {
      assert s[..1] == [s[0]] && [s[0]][1..] == "" && s[..0] == "";
      assert Escaped([s[0]]) == EscapeChar(s[0]) + "" == EscapeChar(s[0]);
      assert "" + EscapeChar(s[0]) == EscapeChar(s[0]);
    } else {
      assert s[..i + 1][1..] == s[1..][..i] && s[..i][1..] == s[1..][..i - 1];
      EscapedSplit(s[1..], i - 1);
      assert EscapeChar(s[0]) + (Escaped(s[1..][..i - 1]) + EscapeChar(s[i]))
        == (EscapeChar(s[0]) + Escaped(s[1..][..i - 1])) + EscapeChar(s[i]);
    }
  }

  lemma {:induction false} EscapedGrows(s: string, i: nat)
    requires i <= |s|
    ensures |Escaped(s[..i])| <= |Escaped(s)|
    decreases |s| - i
  {
    if i == |s| {
      assert s[..i] == s;
    } else {
      EscapedGrows(s, i + 1);
      EscapedSplit(s, i);
    }
  }

  lemma EscapedNext(before: string, s: string, i: nat)
    requires i < |s|
    ensures before + Escaped(s[..i + 1]) == (before + Escaped(s[..i])) + EscapeChar(s[i])
    ensures |Escaped(s[..i])| + |EscapeChar(s[i])| <= |Escaped(s)|
  {
    EscapedSplit(s, i);
    EscapedGrows(s, i + 1);
  }

  lemma {:induction false} PlainEscaped(s: string)
    requires forall i :: 0 <= i < |s| ==> !Special(s[i])
    ensures Escaped(s) == s
    decreases |s|
  {
    if s != "" {
      PlainEscaped(s[1..]);
      assert [s[0]] + s[1..] == s;
    }
  }

  /** print_string_ptr, first part: does the string need escapes, and how long does it get? */
  method Measure(s: string) returns (flag: bool, len: nat)
    requires NoNul(s)
    ensures len == |Escaped(s)| && (!flag ==> Escaped(s) == s)
  {
    flag := false;
    var i := 0;
    while i < |s|
      invariant 0 <= i <= |s| && (!flag ==> forall k :: 0 <= k < i ==> !Special(s[k]))
    {
      if Special(s[i]) { flag := true; }
      i := i + 1;
    }
    if !flag {
      PlainEscaped(s);
      len := |s|;
      return;
    }
    i, len := 0, 0;
    assert s[..0] == "";
    while i < |s|
      invariant 0 <= i <= |s| && len == |Escaped(s[..i])|
    {
      EscapedSplit(s, i);
      len := len + EscapedSize(s[i]);
      i := i + 1;
    }
    assert s[..i] == s;
  }

  /** The loop of print_string_ptr over a string that needs escapes. */
  method PutAll(a: array<char>, at: nat, s: string, ghost before: string) returns (pos: nat)
    requires Has(a, before) && at == |before| && at + |Escaped(s)| <= a.Length
    modifies a
    ensures Has(a, before + Escaped(s)) && pos == at + |Escaped(s)|
  {
    pos := at;
    var i := 0;
    assert s[..0] == "" && before + "" == before;
    while i < |s|
      invariant 0 <= i <= |s| && Has(a, before + Escaped(s[..i])) && pos == |before + Escaped(s[..i])|
    {
      EscapedNext(before, s, i);
      pos := PutEscaped(a, pos, s[i], before + Escaped(s[..i]));
      i := i + 1;
    }
    assert s[..i] == s;
  }

  /** print_string_ptr, second part, into the characters from `at` on. */
  method PutQuoted(a: array<char>, at: nat, s: string, flag: bool, ghost before: string)
    requires Has(a, before) && at == |before| && at + |Escaped(s)| + 3 <= a.Length
    requires !flag ==> Escaped(s) == s
    modifies a
    ensures Has(a, before + (Quoted(s) + "\0"))
  {
    Put(a, at, "\"", before);
    ghost var b := before + "\"";
    var pos := at + 1;
    if !flag {
      Put(a, pos, s, b);
      pos := pos + |s|;
    } else {
      pos := PutAll(a, pos, s, b);
    }
    Put(a, pos, "\"\0", b + Escaped(s));
    QuotedText(before, Escaped(s));
  }

  lemma QuotedText(before: string, e: string)
    ensures before + "\"" + e + "\"\0" == before + (("\"" + e + "\"") + "\0")
  {
  }

  lemma {:induction false} DecimalSize(n: nat, digits: nat, bound: nat)
    requires digits > 0 && n < bound == Power10(digits)
    ensures |Decimal(n)| <= digits
    decreases digits
  {
    if n >= 10 {
      assert digits > 1;
      DecimalSize(n / 10, digits - 1, Power10(digits - 1));
    }
  }

  function Power10(digits: nat): nat {
    if digits == 0 then 1 else 10 * Power10(digits - 1)
  }

  /** sprintf of a C int needs at most 11 characters. */
  lemma NumberSize(n: int)
    requires INT_MIN <= n <= INT_MAX
    ensures |PrintNumber(n)| <= 11
  {
    assert Power10(10) == 10_000_000_000 by {
      assert Power10(5) == 100_000;
      assert Power10(7) == 10_000_000;
    }
    DecimalSize(if n < 0 then -n else n, 10, Power10(10));
  }

  // ---------------------------------------------------------- the growing buffer

  /** A bound on the work that is left, for termination only. */
  function Size(v: Json): (n: nat)
    ensures n > 0
  {
    match v
    case Arr(items) => 1 + SizeItems(items)
    case Obj(members) => 1 + SizeMembers(members)
    case _ => 1
  }

  function SizeItems(items: Items): nat {
    match items
    case NoItems => 0
    case Item(v, tail) => Size(v) + SizeItems(tail)
  }

  function SizeMembers(members: Members): nat {
    match members
    case NoMembers => 0
    case Member(_, v, rest) => Size(v) + SizeMembers(rest)
  }

  // No printed text holds a NUL, so strlen finds its end.

  lemma {:induction false} EscapedNoNul(s: string)
    ensures NoNul(Escaped(s))
    decreases |s|
  {
    if s != "" { EscapedNoNul(s[1..]); }
  }

  lemma {:induction false} DecimalNoNul(n: nat)
    ensures NoNul(Decimal(n))
  {
    if n >= 10 { DecimalNoNul(n / 10); }
  }

  lemma {:induction false} PrintNoNul(v: Json, depth: nat, fmt: bool)
    ensures NoNul(Print(v, depth, fmt))
    decreases v, 0
  {
    match v
    case Num(n) => DecimalNoNul(if n < 0 then -n else n);
    case Str(s) => EscapedNoNul(s);
    case Arr(items) => ItemsNoNul(items, depth + 1, fmt);
    case Obj(members) =>
      MembersNoNul(members, depth + 1, fmt);
      if members.Member? {
        assert NoNul(Open(fmt)) && NoNul(Close(depth, fmt));
        JoinNoNul(Open(fmt), PrintMembers(members, depth + 1, fmt));
        JoinNoNul(Open(fmt) + PrintMembers(members, depth + 1, fmt), Close(depth, fmt));
      }
    case _ =>
  }

  lemma JoinNoNul(a: string, b: string)
    requires NoNul(a) && NoNul(b)
    ensures NoNul(a + b)
  {
  }

  lemma {:induction false} ItemsNoNul(items: Items, depth: nat, fmt: bool)
    ensures NoNul(PrintItems(items, depth, fmt))
    decreases items, 1
  {
    match items
    case NoItems =>
    case Item(v, tail) =>
      PrintNoNul(v, depth, fmt);
      ItemsNoNul(tail, depth, fmt);
  }

  lemma {:induction false} MembersNoNul(members: Members, depth: nat, fmt: bool)
    ensures NoNul(PrintMembers(members, depth, fmt))
    decreases members, 1
  {
    match members
    case NoMembers =>
    case Member(name, v, rest) =>
      EscapedNoNul(name);
      PrintNoNul(v, depth, fmt);
      MembersNoNul(rest, depth, fmt);
  }

  // How the text of children is put together.

  /** One child printed, and the separator if there is another. */
  lemma ItemDone(before: string, done: string, v: Json, tail: Items, depth: nat, fmt: bool, all: string)
    requires all == done + PrintItems(Item(v, tail), depth, fmt)
    ensures var p := Print(v, depth, fmt);
      && before + done + p == before + (done + p)
      && before + (done + p) + Comma(fmt) == before + (done + p + Comma(fmt))
      && all == if tail.NoItems? then done + p else (done + p + Comma(fmt)) + PrintItems(tail, depth, fmt)
  {
    var p := Print(v, depth, fmt);
    Regroup(before, done, p);
    Regroup(before, done + p, Comma(fmt));
    if tail.NoItems? {
      assert p + "" == p;
    } else {
      ItemText(done, p, Comma(fmt), PrintItems(tail, depth, fmt));
    }
  }

  lemma ItemText(done: string, p: string, comma: string, more: string)
    ensures done + (p + (comma + more)) == (done + p + comma) + more
  {
  }

  /** One member printed. */
  lemma MemberDone(done: string, name: string, v: Json, rest: Members, depth: nat, fmt: bool, all: string)
    requires all == done + PrintMembers(Member(name, v, rest), depth, fmt)
    ensures all == done + (if fmt then Tabs(depth) else "") + Quoted(name) + (if fmt then ":\t" else ":")
      + Print(v, depth, fmt) + Ending(rest.NoMembers?, fmt) + PrintMembers(rest, depth, fmt)
  {
    MemberText(done, if fmt then Tabs(depth) else "", Quoted(name), if fmt then ":\t" else ":", Print(v, depth, fmt),
               Ending(rest.NoMembers?, fmt), PrintMembers(rest, depth, fmt));
  }

  lemma MemberText(done: string, tabs: string, q: string, colon: string, p: string, e: string, more: string)
    ensures done + ((tabs + (q + colon)) + p + e + more) == done + tabs + q + colon + p + e + more
  {
  }

  lemma LastText(before: string, all: string, close: string)
    ensures before + all + (close + "\0") == before + ((all + close) + "\0")
  {
  }

  lemma Regroup(a: string, b: string, c: string)
    ensures a + (b + c) == (a + b) + c
  {
  }

  class PrintBuffer {
    var buffer: array<char>
    var offset: nat

    /** cJSON_PrintBuffered up to the call of print_value; `length` is buffer.Length */
    constructor (prebuffer: nat)
      ensures buffer.Length == prebuffer && offset == 0 && fresh(buffer)
    {
      buffer := new char[prebuffer];
      offset := 0;
    }

    /** What has been printed ends at the offset. */
    ghost predicate At(before: string)
      reads this, buffer
    {
      Has(buffer, before) && offset == |before|
    }

    /** The text and its NUL are there; the offset is somewhere in the text. */
    ghost predicate Printed(before: string, text: string)
      reads this, buffer
    {
      Has(buffer, before + (text + "\0")) && |before| <= offset <= |before| + |text|
    }

    method Ensure(needed: nat, ghost before: string)
      requires At(before)
      modifies this`buffer
      ensures At(before) && offset + needed <= buffer.Length
      ensures buffer == old(buffer) || fresh(buffer)
      ensures buffer.Length == if offset + needed <= old(buffer.Length) then old(buffer.Length) else Pow2gt(offset + needed, 1)
    {
      var total := needed + offset;
      if total <= buffer.Length {
        return;
      }
      var grown := new char[Pow2gt(total, 1)];
      forall i | 0 <= i < buffer.Length {
        grown[i] := buffer[i];
      }
      assert grown[..offset] == buffer[..offset];
      buffer := grown;
    }

    /** Ask for room and write there; the offset stays. */
    method Emit(needed: nat, s: string, ghost before: string)
      requires At(before) && |s| <= needed
      modifies this`buffer, buffer
      ensures Has(buffer, before + s) && offset == |before|
      ensures buffer == old(buffer) || fresh(buffer)
    {
      Ensure(needed, before);
      Put(buffer, offset, s, before);
    }

    /** update: move the offset to the end of the text */
    method Update(ghost before: string, ghost text: string)
      requires Printed(before, text) && NoNul(text)
      modifies this`offset
      ensures At(before + text)
    {
      ghost var all := before + (text + "\0");
      ghost var end := |before| + |text|;
      assert all[end] == '\0' && forall i :: |before| <= i < end ==> all[i] == text[i - |before|];
      assert forall i :: 0 <= i < |all| ==> buffer[i] == buffer[..|all|][i];
      var n := 0;
      while buffer[offset + n] != '\0'
        invariant offset + n <= end < buffer.Length
        decreases end - offset - n
      {
        n := n + 1;
      }
      offset := offset + n;
      assert offset == end && before + text == all[..end] == buffer[..end];
    }

    /** Write s, and a NUL if wanted, and go past s. */
    method Append(needed: nat, s: string, nul: string, ghost before: string)
      requires At(before) && |s| + |nul| <= needed
      modifies this, buffer
      ensures At(before + s)
      ensures buffer == old(buffer) || fresh(buffer)
    {
      Emit(needed, s + nul, before);
      offset := offset + |s|;
      assert before + s == (before + (s + nul))[..offset] == buffer[..offset];
    }

    /** print_string_ptr */
    method PrintString(s: string, ghost before: string)
      requires At(before) && NoNul(s)
      modifies this, buffer
      ensures Printed(before, Quoted(s))
      ensures buffer == old(buffer) || fresh(buffer)
    {
      var flag, len := Measure(s);
      Ensure(len + 3, before);
      PutQuoted(buffer, offset, s, flag, before);
    }

    /** print_number */
    method PrintNum(n: int, ghost before: string)
      requires At(before) && INT_MIN <= n <= INT_MAX
      modifies this, buffer
      ensures Printed(before, PrintNumber(n))
      ensures buffer == old(buffer) || fresh(buffer)
    {
      if n == 0 {
        Emit(2, "0\0", before);
        assert PrintNumber(n) + "\0" == "0\0";
      } else {
        NumberSize(n);
        Emit(21, PrintNumber(n) + "\0", before);
      }
    }

    /** print_value with a buffer */
    method PrintValue(v: Json, depth: nat, fmt: bool, ghost before: string)
      requires At(before) && Holds(v)
      modifies this, buffer
      ensures Printed(before, Print(v, depth, fmt))
      ensures buffer == old(buffer) || fresh(buffer)
      decreases Size(v), 0
    {
      match v
      case Null => Emit(5, "null\0", before); assert "null" + "\0" == "null\0";
      case False => Emit(6, "false\0", before); assert "false" + "\0" == "false\0";
      case True => Emit(5, "true\0", before); assert "true" + "\0" == "true\0";
      case Num(n) => PrintNum(n, before);
      case Str(s) => PrintString(s, before);
      case Arr(items) =>
        if items.NoItems? {
          Emit(3, "[]\0", before);
          assert ("[" + PrintItems(items, depth + 1, fmt) + "]") + "\0" == "[]\0";
        } else {
          PrintArray(items, depth, fmt, before);
        }
      case Obj(members) =>
        if members.NoMembers? {
          var text := (if fmt then "{\n" + Tabs(depth - 1) else "{") + "}";
          Emit(if fmt then depth + 4 else 3, text + "\0", before);
        } else {
          PrintObject(members, depth, fmt, before);
        }
    }

    /** print_array with a buffer and at least one child */
    method PrintArray(items: Items, depth: nat, fmt: bool, ghost before: string)
      requires At(before) && HoldItems(items) && items.Item?
      modifies this, buffer
      ensures Printed(before, Print(Arr(items), depth, fmt))
      ensures buffer == old(buffer) || fresh(buffer)
      decreases SizeItems(items), 1
    {
      Append(1, "[", "", before);
      var child := items;
      ghost var done, all := "[", "[" + PrintItems(items, depth + 1, fmt);
      while child.Item?
        invariant At(before + done) && HoldItems(child) && SizeItems(child) <= SizeItems(items)
        invariant child.Item? ==> all == done + PrintItems(child, depth + 1, fmt)
        invariant child.NoItems? ==> all == done
        invariant buffer == old(buffer) || fresh(buffer)
        decreases child
      {
        ghost var p := Print(child.head, depth + 1, fmt);
        ItemDone(before, done, child.head, child.tail, depth + 1, fmt, all);
        PrintValue(child.head, depth + 1, fmt, before + done);
        PrintNoNul(child.head, depth + 1, fmt);
        Update(before + done, p);
        done := done + p;
        if child.tail.Item? {
          var len := if fmt then 2 else 1;
          Append(len + 1, Comma(fmt), "\0", before + done);
          done := done + Comma(fmt);
        }
        child := child.tail;
      }
      Emit(2, "]\0", before + done);
      assert "]\0" == "]" + "\0";
      LastText(before, all, "]");
    }

    /** print_object with a buffer and at least one child */
    method PrintObject(members: Members, depth: nat, fmt: bool, ghost before: string)
      requires At(before) && HoldMembers(members) && members.Member?
      modifies this, buffer
      ensures Printed(before, Print(Obj(members), depth, fmt))
      ensures buffer == old(buffer) || fresh(buffer)
      decreases SizeMembers(members), 2
    {
      var len := if fmt then 2 else 1;
      Append(len + 1, Open(fmt), "\0", before);
      var child, inner := members, depth + 1;
      ghost var done, all := Open(fmt), Open(fmt) + PrintMembers(members, inner, fmt);
      while child.Member?
        invariant At(before + done) && HoldMembers(child) && SizeMembers(child) <= SizeMembers(members)
        invariant all == done + PrintMembers(child, inner, fmt)
        invariant buffer == old(buffer) || fresh(buffer)
        decreases child
      {
        MemberDone(done, child.name, child.value, child.rest, inner, fmt, all);
        done := PrintMember(child.name, child.value, child.rest.Member?, inner, fmt, before, done);
        child := child.rest;
      }
      assert done == all;
      Emit(if fmt then inner + 1 else 2, Close(depth, fmt) + "\0", before + done);
      LastText(before, all, Close(depth, fmt));
    }

    /** One turn of the loop of print_object. */
    method PrintMember(name: string, v: Json, more: bool, depth: nat, fmt: bool, ghost before: string, ghost done: string)
      returns (ghost done': string)
      requires At(before + done) && NoNul(name) && Holds(v)
      modifies this, buffer
      ensures done' == done + (if fmt then Tabs(depth) else "") + Quoted(name) + (if fmt then ":\t" else ":")
        + Print(v, depth, fmt) + Ending(!more, fmt)
      ensures At(before + done')
      ensures buffer == old(buffer) || fresh(buffer)
      decreases Size(v), 1
    {
      done' := done + if fmt then Tabs(depth) else "";
      if fmt {
        Append(depth, Tabs(depth), "", before + done);
        Regroup(before, done, Tabs(depth));
      } else {
        assert done' == done;
      }
      PrintString(name, before + done');
      EscapedNoNul(name);
      Update(before + done', Quoted(name));
      Regroup(before, done', Quoted(name));
      done' := done' + Quoted(name);
      var colon := if fmt then ":\t" else ":";
      Append(|colon|, colon, "", before + done');
      Regroup(before, done', colon);
      done' := done' + colon;
      PrintValue(v, depth, fmt, before + done');
      PrintNoNul(v, depth, fmt);
      Update(before + done', Print(v, depth, fmt));
      Regroup(before, done', Print(v, depth, fmt));
      done' := done' + Print(v, depth, fmt);
      var len := (if fmt then 1 else 0) + (if more then 1 else 0);
      Append(len + 1, Ending(!more, fmt), "\0", before + done');
      Regroup(before, done', Ending(!more, fmt));
      done' := done' + Ending(!more, fmt);
    }
  }

  /** cJSON_PrintBuffered: whatever the starting size, the buffer holds the text and its NUL. */
  method PrintBuffered(v: Json, prebuffer: nat, fmt: bool) returns (out: array<char>)
    requires Holds(v)
    ensures Has(out, Print(v, 0, fmt) + "\0")
  {
    var p := new PrintBuffer(prebuffer);
    assert p.buffer[..0] == "";
    p.PrintValue(v, 0, fmt, "");
    assert "" + (Print(v, 0, fmt) + "\0") == Print(v, 0, fmt) + "\0";
    out := p.buffer;
  }
}
