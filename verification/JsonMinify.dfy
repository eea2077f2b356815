/**
  cJSON_Minify: white space and comments are taken out of a text in place, string
  literals are left alone.
*/
module JsonMinify {
  import opened Common
  import opened Json

  predicate IsWhite(c: char) {
    c == ' ' || c == '\t' || c == '\r' || c == '\n'
  }

  /** How far a // comment goes: up to the end of the line, which is not part of it. */
  function LineComment(t: string): (n: nat)
    ensures n <= |t|
    ensures forall i :: 0 <= i < n ==> t[i] != '\0'
  {
    if Ends(t) || t[0] == '\n' then 0 else 1 + LineComment(t[1..])
  }

  /** How far a block comment goes; None if it does not end. */
  function BlockComment(t: string): (n: Option<nat>)
    ensures n.Some? ==> 2 <= n.value <= |t| && forall i :: 0 <= i < n.value ==> t[i] != '\0'
  {
    if Ends(t) then None
    else if |t| >= 2 && t[0] == '*' && t[1] == '/' then Some(2)
    else
      match BlockComment(t[1..])
      case None => None
      case Some(n) => Some(1 + n)
  }

  /** How far a string literal goes behind its opening quote; None if it does not end. */
  function Literal(t: string): (n: Option<nat>)
    ensures n.Some? ==> 1 <= n.value <= |t| && forall i :: 0 <= i < n.value ==> t[i] != '\0'
    decreases |t|
  {
    if Ends(t) then None
    else if t[0] == '\"' then Some(1)
    else if t[0] == '\\' then
      if Ends(t[1..]) then None
      else
        match Literal(t[2..])
        case None => None
        case Some(n) => Some(2 + n)
    else
      match Literal(t[1..])
      case None => None
      case Some(n) => Some(1 + n)
  }

  function Glue(s: string, r: Option<string>): Option<string> {
    match r
    case None => None
    case Some(more) => Some(s + more)
  }

  /** The minified text; None where the source would run past the terminating NUL, because a
      string literal or a comment does not end. */
  function Minified(t: string): Option<string>
    decreases |t|
  {
    if Ends(t) then Some("")
    else if IsWhite(t[0]) then Minified(t[1..])
    else if t[0] == '/' && Starts(t[1..], '/') then Minified(t[LineComment(t)..])
    else if t[0] == '/' && Starts(t[1..], '*') then
      match BlockComment(t)
      case None => None
      case Some(n) => Minified(t[n..])
    else if t[0] == '\"' then
      match Literal(t[1..])
      case None => None
      case Some(n) => Glue(t[..1 + n], Minified(t[1 + n..]))
    else Glue([t[0]], Minified(t[1..]))
  }

  // ----------------------------------------------- minifying what was printed

  /** A text that is copied as it is: no white space, quotes, slashes or NULs. */
  predicate Plain(s: string) {
    forall i :: 0 <= i < |s| ==> s[i] != '\0' && s[i] != '\"' && s[i] != '/' && !IsWhite(s[i])
  }

  predicate White(s: string) {
    forall i :: 0 <= i < |s| ==> IsWhite(s[i])
  }

  lemma {:induction false} MinifyPlain(s: string, rest: string)
    requires Plain(s)
    ensures Minified(s + rest) == Glue(s, Minified(rest))
    decreases |s|
  {
    if s == "" {
      assert s + rest == rest;
      GlueNothing(Minified(rest));
    } else {
      assert (s + rest)[1..] == s[1..] + rest;
      MinifyPlain(s[1..], rest);
      GlueTwice([s[0]], s[1..], Minified(rest));
      assert [s[0]] + s[1..] == s;
    }
  }

  lemma {:induction false} MinifyWhite(s: string, rest: string)
    requires White(s)
    ensures Minified(s + rest) == Minified(rest)
    decreases |s|
  {
    if s == "" {
      assert s + rest == rest;
    } else {
      assert (s + rest)[1..] == s[1..] + rest;
      MinifyWhite(s[1..], rest);
    }
  }

  lemma GlueNothing(r: Option<string>)
    ensures Glue("", r) == r
  {
    if r.Some? { assert "" + r.value == r.value; }
  }

  lemma GlueTwice(a: string, b: string, r: Option<string>)
    ensures Glue(a, Glue(b, r)) == Glue(a + b, r)
  {
    if r.Some? { assert a + (b + r.value) == (a + b) + r.value; }
  }

  /** A printed string literal ends at its own closing quote. */
  lemma {:induction false} LiteralPrinted(s: string, rest: string)
    requires NoNul(s)
    ensures Literal(Escaped(s) + "\"" + rest) == Some(|Escaped(s)| + 1)
    decreases |s|
  {
    if s == "" {
      assert Escaped(s) + "\"" + rest == "\"" + rest;
    } else {
      var more := Escaped(s[1..]) + "\"" + rest;
      LiteralPrinted(s[1..], rest);
      assert Escaped(s) + "\"" + rest == EscapeChar(s[0]) + more;
      EscapeHasShape(s[0]);
      LiteralEscape(EscapeChar(s[0]), more);
    }
  }

  lemma LiteralPair(c: char, more: string)
    requires c != '\0' && Literal(more).Some?
    ensures Literal(['\\', c] + more) == Some(2 + Literal(more).value)
  {
    var t := ['\\', c] + more;
    assert t[2..] == more;
    LiteralSkipsTwo(t);
  }

  lemma LiteralSkipsTwo(t: string)
    requires |t| >= 2 && t[0] == '\\' && t[1] != '\0' && Literal(t[2..]).Some?
    ensures Literal(t) == Some(2 + Literal(t[2..]).value)
  {
    assert !Ends(t[1..]);
  }

  /** One plain character, a pair, or \u and four hexadecimal digits. */
  predicate EscapeShape(e: string) {
    if |e| == 1 then e[0] != '\0' && e[0] != '\"' && e[0] != '\\'
    else if |e| == 2 then e[0] == '\\' && e[1] != '\0'
    else |e| == 6 && e[..2] == ['\\', 'u'] && forall i :: 2 <= i < 6 ==> e[i] != '\0' && e[i] != '\"' && e[i] != '\\'
  }

  lemma EscapeHasShape(c: char)
    requires c != '\0'
    ensures EscapeShape(EscapeChar(c))
  {
  }

  lemma LiteralControl(e: string, more: string)
    requires |e| == 6 && e[..2] == ['\\', 'u'] && Literal(more).Some?
    requires forall i :: 2 <= i < 6 ==> e[i] != '\0' && e[i] != '\"' && e[i] != '\\'
    ensures Literal(e + more) == Some(6 + Literal(more).value)
  {
    LiteralPlain(e[2..], more);
    LiteralPair('u', e[2..] + more);
    assert e + more == e[..2] + (e[2..] + more);
  }

  lemma LiteralEscape(e: string, more: string)
    requires EscapeShape(e) && Literal(more).Some?
    ensures Literal(e + more) == Some(|e| + Literal(more).value)
  {
    if |e| == 1 {
      LiteralPlain(e, more);
    } else if |e| == 2 {
      assert e == ['\\', e[1]];
      LiteralPair(e[1], more);
    } else {
      LiteralControl(e, more);
    }
  }

  lemma {:induction false} LiteralPlain(s: string, more: string)
    requires Literal(more).Some? && forall i :: 0 <= i < |s| ==> s[i] != '\0' && s[i] != '\"' && s[i] != '\\'
    ensures Literal(s + more) == Some(|s| + Literal(more).value)
    decreases |s|
  {
    if s == "" {
      assert s + more == more;
    } else {
      assert (s + more)[1..] == s[1..] + more;
      LiteralPlain(s[1..], more);
    }
  }

  lemma MinifyQuoted(s: string, rest: string)
    requires NoNul(s)
    ensures Minified(Quoted(s) + rest) == Glue(Quoted(s), Minified(rest))
  {
    var t := Quoted(s) + rest;
    assert t[1..] == Escaped(s) + "\"" + rest;
    LiteralPrinted(s, rest);
    var n := |Escaped(s)| + 1;
    assert t[..1 + n] == Quoted(s) && t[1 + n..] == rest;
  }

  lemma {:induction false} DecimalPlain(n: nat)
    ensures Plain(Decimal(n))
  {
    if n >= 10 { DecimalPlain(n / 10); }
  }

  /** Some plain or white text, then something known. */
  lemma MinifySteps(plain: string, white: string, rest: string)
    requires Plain(plain) && White(white)
    ensures Minified(plain + (white + rest)) == Glue(plain, Minified(rest))
  {
    MinifyPlain(plain, white + rest);
    MinifyWhite(white, rest);
  }

  /** Minifying the formatted print of a tree gives its unformatted print, whatever follows. */
  lemma {:induction false} MinifyPrinted(v: Json, depth: nat, depth': nat, rest: string)
    requires Holds(v)
    ensures Minified(Print(v, depth, true) + rest) == Glue(Print(v, depth', false), Minified(rest))
    decreases v, 0
  {
    match v
    case Num(n) =>
      DecimalPlain(if n < 0 then -n else n);
      MinifyPlain(PrintNumber(n), rest);
    case Str(s) => MinifyQuoted(s, rest);
    case Arr(items) => MinifyArray(items, depth, depth', rest);
    case Obj(members) => MinifyObject(members, depth, depth', rest);
    case _ => MinifyPlain(Print(v, depth, true), rest);
  }

  lemma MinifyArray(items: Items, depth: nat, depth': nat, rest: string)
    requires HoldItems(items)
    ensures Minified(Print(Arr(items), depth, true) + rest) == Glue(Print(Arr(items), depth', false), Minified(rest))
    decreases items, 2
  {
    var p, p' := PrintItems(items, depth + 1, true), PrintItems(items, depth' + 1, false);
    MinifyItems(items, depth + 1, depth' + 1, "]" + rest);
    assert "" + ("]" + rest) == "]" + rest;
    Enclosed("[", "", p, p', "", "]", rest);
    assert "[" + "" == "[" && "" + "]" == "]";
  }

  /** An opening, something known, and a closing. */
  lemma Enclosed(open: string, white: string, p: string, p': string, white': string, close: string, rest: string)
    requires Plain(open) && White(white) && White(white') && Plain(close)
    requires Minified(p + (white' + (close + rest))) == Glue(p', Minified(white' + (close + rest)))
    ensures Minified((open + white) + p + (white' + close) + rest) == Glue(open + p' + close, Minified(rest))
  {
    MinifySteps(open, white, p + (white' + (close + rest)));
    MinifyWhite(white', close + rest);
    MinifyPlain(close, rest);
    GlueTwice(p', close, Minified(rest));
    GlueTwice(open, p' + close, Minified(rest));
    assert open + (p' + close) == open + p' + close;
    EnclosedText(open, white, p, white', close, rest);
  }

  lemma EnclosedText(open: string, white: string, p: string, white': string, close: string, rest: string)
    ensures (open + white) + p + (white' + close) + rest == open + (white + (p + (white' + (close + rest))))
  {
  }

  lemma {:induction false} MinifyItems(items: Items, depth: nat, depth': nat, rest: string)
    requires HoldItems(items)
    ensures Minified(PrintItems(items, depth, true) + rest) == Glue(PrintItems(items, depth', false), Minified(rest))
    decreases items, 1
  {
    match items
    case NoItems =>
      assert "" + rest == rest;
      GlueNothing(Minified(rest));
    case Item(v, tail) =>
      var p, p' := Print(v, depth, true), Print(v, depth', false);
      if tail.NoItems? {
        MinifyPrinted(v, depth, depth', rest);
        assert p + "" == p && p' + "" == p';
      } else {
        var more, more' := PrintItems(tail, depth, true), PrintItems(tail, depth', false);
        MinifyItems(tail, depth, depth', rest);
        MinifyPrinted(v, depth, depth', "," + (" " + (more + rest)));
        Separated(p, p', more, more', rest);
      }
  }

  lemma Separated(p: string, p': string, more: string, more': string, rest: string)
    requires Minified(more + rest) == Glue(more', Minified(rest))
    requires Minified(p + ("," + (" " + (more + rest)))) == Glue(p', Minified("," + (" " + (more + rest))))
    ensures Minified((p + (", " + more)) + rest) == Glue(p' + ("," + more'), Minified(rest))
  {
    MinifySteps(",", " ", more + rest);
    GlueTwice(",", more', Minified(rest));
    GlueTwice(p', "," + more', Minified(rest));
    SeparatedText(p, more, rest);
  }

  lemma SeparatedText(p: string, more: string, rest: string)
    ensures (p + (", " + more)) + rest == p + ("," + (" " + (more + rest)))
  {
  }

  lemma MinifyObject(members: Members, depth: nat, depth': nat, rest: string)
    requires HoldMembers(members)
    ensures Minified(Print(Obj(members), depth, true) + rest) == Glue(Print(Obj(members), depth', false), Minified(rest))
    decreases members, 2
  {
    match members
    case NoMembers =>
      EmptyMinified(Tabs(depth - 1), rest);
      assert "{\n" + Tabs(depth - 1) + "}" == Print(Obj(members), depth, true);
      assert "{" + "}" == Print(Obj(members), depth', false);
    case Member(_, _, _) =>
      var p, p' := PrintMembers(members, depth + 1, true), PrintMembers(members, depth' + 1, false);
      MinifyMembers(members, depth + 1, depth' + 1, Tabs(depth) + ("}" + rest));
      Enclosed("{", "\n", p, p', Tabs(depth), "}", rest);
      assert "" + "}" == "}" && "{" + "\n" == "{\n";
  }

  lemma EmptyMinified(tabs: string, rest: string)
    requires White(tabs)
    ensures Minified("{\n" + tabs + "}" + rest) == Glue("{" + "}", Minified(rest))
  {
    assert "{\n" + tabs + "}" + rest == "{" + (("\n" + tabs) + ("}" + rest));
    MinifySteps("{", "\n" + tabs, "}" + rest);
    MinifyPlain("}", rest);
    GlueTwice("{", "}", Minified(rest));
  }

  lemma {:induction false} MinifyMembers(members: Members, depth: nat, depth': nat, rest: string)
    requires HoldMembers(members)
    ensures Minified(PrintMembers(members, depth, true) + rest) == Glue(PrintMembers(members, depth', false), Minified(rest))
    decreases members, 1
  {
    match members
    case NoMembers =>
      assert "" + rest == rest;
      GlueNothing(Minified(rest));
    case Member(name, v, next) =>
      var p, p' := Print(v, depth, true), Print(v, depth', false);
      var more, more' := PrintMembers(next, depth, true), PrintMembers(next, depth', false);
      var comma := if next.NoMembers? then "" else ",";
      MinifyMembers(next, depth, depth', rest);
      MinifySteps(comma, "\n", more + rest);
      var r3 := comma + ("\n" + (more + rest));
      MinifyPrinted(v, depth, depth', r3);
      MinifySteps(":", "\t", p + r3);
      MinifyQuoted(name, ":" + ("\t" + (p + r3)));
      MinifyWhite(Tabs(depth), Quoted(name) + (":" + ("\t" + (p + r3))));
      MemberRegroup(Tabs(depth), Quoted(name), p, comma, more, rest);
      Collect(Quoted(name), p', comma, more', Minified(rest));
      assert comma + "" == comma && "" + (Quoted(name) + ":") == Quoted(name) + ":";
  }

  lemma MemberRegroup(tabs: string, q: string, p: string, comma: string, more: string, rest: string)
    ensures ((tabs + (q + ":\t")) + p + (comma + "\n") + more) + rest
      == tabs + (q + (":" + ("\t" + (p + (comma + ("\n" + (more + rest)))))))
  {
    assert ":\t" == ":" + "\t";
  }

  lemma Collect(q: string, p: string, comma: string, more: string, r: Option<string>)
    ensures Glue(q, Glue(":", Glue(p, Glue(comma, Glue(more, r))))) == Glue((q + ":") + p + comma + more, r)
  {
    GlueTwice(comma, more, r);
    GlueTwice(p, comma + more, r);
    GlueTwice(":", p + (comma + more), r);
    GlueTwice(q, ":" + (p + (comma + more)), r);
    assert q + (":" + (p + (comma + more))) == (q + ":") + p + comma + more;
  }

  /** cJSON_Minify of cJSON_Print is cJSON_PrintUnformatted. */
  lemma MinifiesToUnformatted(v: Json)
    requires Holds(v)
    ensures Minified(Print(v, 0, true)) == Some(Print(v, 0, false))
  {
    MinifyPrinted(v, 0, 0, "");
    assert Print(v, 0, true) + "" == Print(v, 0, true) && Print(v, 0, false) + "" == Print(v, 0, false);
  }

  // -------------------------------------------------------------------- in place

  /** a holds the text t and its terminating NUL, from r on as it was. */
  ghost predicate Unread(a: array<char>, t: string, r: nat)
    reads a
  {
    r <= |t| < a.Length && (forall i {:trigger a[i]} :: r <= i < |t| ==> a[i] == t[i]) && a[|t|] == '\0'
  }

  /** `out` is written, the rest of t from r on is to come, and it is well formed. */
  ghost predicate Ahead(t: string, r: nat, out: string) {
    r <= |t| && Minified(t[r..]).Some? && Minified(t) == Glue(out, Minified(t[r..]))
  }

  lemma SliceSlice(t: string, r: nat, n: nat)
    requires r + n <= |t|
    ensures t[r..][n..] == t[r + n..] && t[r..][..n] == t[r..r + n]
  {
  }

  lemma WhiteAhead(t: string, r: nat, out: string)
    requires r < |t| && NoNul(t) && Ahead(t, r, out) && IsWhite(t[r])
    ensures Ahead(t, r + 1, out)
  {
    SliceSlice(t, r, 1);
  }

  lemma LineAhead(t: string, r: nat, out: string)
    requires r + 1 < |t| && NoNul(t) && Ahead(t, r, out) && t[r] == '/' && t[r + 1] == '/'
    ensures Ahead(t, r + LineComment(t[r..]), out)
  {
    SliceSlice(t, r, 1);
    SliceSlice(t, r, LineComment(t[r..]));
  }

  lemma BlockAhead(t: string, r: nat, out: string)
    requires r + 1 < |t| && NoNul(t) && Ahead(t, r, out) && t[r] == '/' && t[r + 1] == '*'
    ensures BlockComment(t[r..]).Some? && Ahead(t, r + BlockComment(t[r..]).value, out)
  {
    SliceSlice(t, r, 1);
    if BlockComment(t[r..]).Some? { SliceSlice(t, r, BlockComment(t[r..]).value); }
  }

  lemma LiteralAhead(t: string, r: nat, out: string)
    requires r < |t| && NoNul(t) && Ahead(t, r, out) && t[r] == '\"'
    ensures Literal(t[r + 1..]).Some?
    ensures var s := r + 1 + Literal(t[r + 1..]).value;
      s <= |t| && Ahead(t, s, out + t[r..s])
  {
    SliceSlice(t, r, 1);
    var n := Literal(t[r + 1..]).value;
    SliceSlice(t, r, 1 + n);
    GlueTwice(out, t[r..r + 1 + n], Minified(t[r + 1 + n..]));
  }

  lemma OtherAhead(t: string, r: nat, out: string)
    requires r < |t| && NoNul(t) && Ahead(t, r, out) && !IsWhite(t[r]) && t[r] != '\"'
    requires !(t[r] == '/' && r + 1 < |t| && (t[r + 1] == '/' || t[r + 1] == '*'))
    ensures Ahead(t, r + 1, out + [t[r]])
  {
    SliceSlice(t, r, 1);
    GlueTwice(out, [t[r]], Minified(t[r + 1..]));
  }

  lemma AllAhead(t: string)
    requires Minified(t).Some?
    ensures Ahead(t, 0, "")
  {
    assert t[0..] == t;
    GlueNothing(Minified(t));
  }

  lemma NothingAhead(t: string, out: string)
    requires Ahead(t, |t|, out)
    ensures Minified(t) == Some(out)
  {
    assert out + "" == out;
  }

  /** cJSON_Minify.  Both positions move through the same array, w never ahead of r. */
  method Minify(a: array<char>, ghost t: string)
    requires NoNul(t) && Unread(a, t, 0) && Minified(t).Some?
    modifies a
    ensures var m := Minified(t).value;
      |m| <= |t| && a[..|m|] == m && a[|m|] == '\0'
    ensures forall i :: |t| < i < a.Length ==> a[i] == old(a[i])
  {
    var r: nat, w: nat := 0, 0;
    ghost var out := "";
    AllAhead(t);
    while a[r] != '\0'
      invariant Between(a, t, r, w, out) && Ahead(t, r, out)
      invariant forall i :: |t| < i < a.Length ==> a[i] == old(a[i])
      decreases |t| - r
    {
      if IsWhite(a[r]) || a[r] == '/' {
        r, w, out := PassBlank(a, t, r, w, out);
      } else {
        r, w, out := PassText(a, t, r, w, out);
      }
    }
    NothingAhead(t, out);
    a[w] := '\0';
  }

  /** The array in the middle of the work: `out` written, the rest of t unread. */
  ghost predicate Between(a: array<char>, t: string, r: nat, w: nat, out: string)
    reads a
  {
    w <= r && Unread(a, t, r) && a[..w] == out
  }

  /** White space, a comment, or a lone slash. */
  method PassBlank(a: array<char>, ghost t: string, r: nat, w: nat, ghost out: string)
    returns (r': nat, w': nat, ghost out': string)
    requires NoNul(t) && Between(a, t, r, w, out) && Ahead(t, r, out) && r < |t| && (IsWhite(t[r]) || t[r] == '/')
    modifies a
    ensures r < r' && Between(a, t, r', w', out') && Ahead(t, r', out')
    ensures forall i :: |t| < i < a.Length ==> a[i] == old(a[i])
  {
    w', out' := w, out;
    if IsWhite(a[r]) {
      WhiteAhead(t, r, out);
      r' := r + 1;
    } else if a[r + 1] == '/' {
      LineAhead(t, r, out);
      r' := SkipLine(a, t, r);
    } else if a[r + 1] == '*' {
      BlockAhead(t, r, out);
      r' := SkipBlock(a, t, r);
    } else {
      r', w', out' := PassOther(a, t, r, w, out);
    }
  }

  /** A string literal or any other character. */
  method PassText(a: array<char>, ghost t: string, r: nat, w: nat, ghost out: string)
    returns (r': nat, w': nat, ghost out': string)
    requires NoNul(t) && Between(a, t, r, w, out) && Ahead(t, r, out) && r < |t| && !IsWhite(t[r]) && t[r] != '/'
    modifies a
    ensures r < r' && Between(a, t, r', w', out') && Ahead(t, r', out')
    ensures forall i :: |t| < i < a.Length ==> a[i] == old(a[i])
  {
    if a[r] == '\"' {
      LiteralAhead(t, r, out);
      ghost var b := a[..];
      r', w' := CopyLiteral(a, t, r, w);
      out' := out + t[r..r'];
      forall i | |t| < i < a.Length ensures a[i] == old(a[i]) { assert a[i] == a[..][i] && b[i] == old(a[i]); }
      assert a[..][..w'] == a[..w'] && b[..w] == old(a[..w]);
    } else {
      r', w', out' := PassOther(a, t, r, w, out);
    }
  }

  method PassOther(a: array<char>, ghost t: string, r: nat, w: nat, ghost out: string)
    returns (r': nat, w': nat, ghost out': string)
    requires NoNul(t) && Between(a, t, r, w, out) && Ahead(t, r, out) && r < |t| && !IsWhite(t[r]) && t[r] != '\"'
    requires !(t[r] == '/' && r + 1 < |t| && (t[r + 1] == '/' || t[r + 1] == '*'))
    modifies a
    ensures r < r' && Between(a, t, r', w', out') && Ahead(t, r', out')
    ensures forall i :: |t| < i < a.Length ==> a[i] == old(a[i])
  {
    OtherAhead(t, r, out);
    out' := out + [t[r]];
    a[w] := a[r];
    r', w' := r + 1, w + 1;
  }

  method SkipLine(a: array<char>, ghost t: string, r: nat) returns (s: nat)
    requires NoNul(t) && Unread(a, t, r) && r < |t| && t[r] == '/'
    ensures s == r + LineComment(t[r..]) && r < s <= |t|
  {
    s := r;
    while a[s] != '\0' && a[s] != '\n'
      invariant r <= s <= |t| && s + LineComment(t[s..]) == r + LineComment(t[r..])
      invariant s == r ==> t[s] == '/'
      decreases |t| - s
    {
      assert t[s..][1..] == t[s + 1..];
      s := s + 1;
    }
  }

  method SkipBlock(a: array<char>, ghost t: string, r: nat) returns (s: nat)
    requires NoNul(t) && Unread(a, t, r) && BlockComment(t[r..]).Some?
    ensures s == r + BlockComment(t[r..]).value && r < s <= |t|
  {
    s := r;
    while a[s] != '\0' && !(a[s] == '*' && a[s + 1] == '/')
      invariant r <= s <= |t| && BlockComment(t[s..]).Some?
      invariant s + BlockComment(t[s..]).value == r + BlockComment(t[r..]).value
      decreases |t| - s
    {
      assert t[s..][1..] == t[s + 1..];
      s := s + 1;
    }
    s := s + 2;
  }

  method CopyLiteral(a: array<char>, ghost t: string, r: nat, w: nat) returns (s: nat, v: nat)
    requires NoNul(t) && Unread(a, t, r) && r < |t| && t[r] == '\"' && w <= r && Literal(t[r + 1..]).Some?
    modifies a
    ensures s == r + 1 + Literal(t[r + 1..]).value <= |t| && v == w + (s - r) && Unread(a, t, s)
    ensures a[..][..v] == old(a[..])[..w] + t[r..s]
    ensures forall i :: |t| < i < a.Length ==> a[..][i] == old(a[..])[i]
  {
    s, v := CopyChar(a, t, r, w, r, w);
    while a[s] != '\0' && a[s] != '\"'
      invariant r < s <= |t| && v == w + (s - r) && Unread(a, t, s) && Copied(a, t, r, w, v)
      invariant Literal(t[s..]).Some? && s + Literal(t[s..]).value == r + 1 + Literal(t[r + 1..]).value
      invariant Elsewhere(old(a[..]), a[..], w, |t|)
      decreases |t| - s
    {
      LiteralStep(t, s);
      if a[s] == '\\' {
        s, v := CopyChar(a, t, r, w, s, v);
      }
      s, v := CopyChar(a, t, r, w, s, v);
    }
    s, v := CopyChar(a, t, r, w, s, v);
    CopyDone(old(a[..]), a[..], t, r, w, s, v);
  }

  lemma CopyDone(b: seq<char>, c: seq<char>, t: string, r: nat, w: nat, s: nat, v: nat)
    requires Elsewhere(b, c, w, |t|) && w <= r <= s <= |t| < |b| && v == w + (s - r)
    requires forall k {:trigger c[k]} :: w <= k < v ==> c[k] == t[k + (r - w)]
    ensures c[..v] == b[..w] + t[r..s]
    ensures forall i :: |t| < i < |c| ==> c[i] == b[i]
  {
  }

  /** `*into++=*json++` inside a literal that began at r and is written from w on */
  method CopyChar(a: array<char>, ghost t: string, ghost r: nat, ghost w: nat, s: nat, v: nat) returns (s': nat, v': nat)
    requires s < |t| && r <= s && v == w + (s - r) && Unread(a, t, s) && Copied(a, t, r, w, v)
    modifies a
    ensures s' == s + 1 && v' == v + 1 && Unread(a, t, s') && Copied(a, t, r, w, v')
    ensures Elsewhere(old(a[..]), a[..], w, |t|)
  {
    a[v] := a[s];
    s', v' := s + 1, v + 1;
  }

  /** The same contents before w and behind n. */
  predicate Elsewhere(b: seq<char>, c: seq<char>, w: nat, n: nat) {
    |b| == |c| && forall i {:trigger c[i]} :: 0 <= i < |b| && (i < w || n < i) ==> c[i] == b[i]
  }

  /** The characters written from w on are those of t from r on. */
  ghost predicate Copied(a: array<char>, t: string, r: nat, w: nat, v: nat)
    reads a
  {
    w <= r && w <= v <= a.Length && r - w + v <= |t| && forall k {:trigger a[k]} :: w <= k < v ==> a[k] == t[k + (r - w)]
  }

  lemma LiteralStep(t: string, s: nat)
    requires NoNul(t) && s < |t| && Literal(t[s..]).Some? && t[s] != '\"'
    ensures var n := if t[s] == '\\' then 2 else 1;
      s + n <= |t| && Literal(t[s + n..]).Some? && Literal(t[s..]).value == n + Literal(t[s + n..]).value
  {
    SliceSlice(t, s, 1);
    if s + 2 <= |t| { SliceSlice(t, s, 2); }
  }

  // ---------------------------------------------------------------------- comments

  lemma {:induction false} LineCommentEnds(body: string, rest: string)
    requires NoNul(body) && '\n' !in body
    ensures LineComment(body + "\n" + rest) == |body|
    decreases |body|
  {
    var t := body + "\n" + rest;
    if body != "" {
      assert t[1..] == body[1..] + "\n" + rest;
      LineCommentEnds(body[1..], rest);
    }
  }

  /** A // comment goes with its line. */
  lemma LineCommentGone(body: string, rest: string)
    requires NoNul(body) && '\n' !in body
    ensures Minified("//" + body + "\n" + rest) == Minified(rest)
  {
    var t := "//" + body + "\n" + rest;
    LineCommentEnds("//" + body, rest);
    assert t[|"//" + body|..] == "\n" + rest;
    assert ("\n" + rest)[1..] == rest;
  }

  /** No end of a block comment begins in the text before its last character. */
  predicate NoEnd(t: string) {
    forall i :: 0 <= i < |t| - 1 ==> !(t[i] == '*' && t[i + 1] == '/')
  }

  lemma {:induction false} BlockCommentEnds(body: string, rest: string)
    requires NoNul(body) && NoEnd(body)
    ensures BlockComment(body + "*/" + rest) == Some(|body| + 2)
    decreases |body|
  {
    var t := body + "*/" + rest;
    if body != "" {
      assert t[1..] == body[1..] + "*/" + rest;
      BlockCommentEnds(body[1..], rest);
    }
  }

  /** A block comment goes up to its first end; the end may share the star of its beginning. */
  lemma BlockCommentGone(body: string, rest: string)
    requires NoNul(body) && NoEnd("*" + body)
    ensures Minified("/*" + body + "*/" + rest) == Minified(rest)
  {
    var t := "/*" + body + "*/" + rest;
    assert "/*" + body == "/" + ("*" + body);
    BlockCommentEnds("/*" + body, rest);
    assert t[|body| + 4..] == rest;
    assert t[1..][0] == '*';
  }

  lemma ShortComment(rest: string)
    ensures Minified("/*/" + rest) == Minified(rest)
  {
    var t := "/*/" + rest;
    assert t == "/" + "*/" + rest;
    BlockCommentEnds("/", rest);
    assert t[3..] == rest && t[1..][0] == '*';
  }

  /** White space between literals goes. */
  lemma WhiteGone(c: char, rest: string)
    requires c == ' ' || c == '\t' || c == '\r' || c == '\n'
    ensures Minified([c] + rest) == Minified(rest)
  {
    assert ([c] + rest)[1..] == rest;
  }
}
