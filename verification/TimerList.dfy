/**
  The timeout list in memory: elements from a pool, linked by `next` pointers and
  spliced in place.  Times are unsigned, so every subtraction below is shown not to
  go under zero.
*/
module TimerList {
  import opened Common
  import opened Timeouts

  datatype Cell = Cell(next: Option<nat>, time: nat, h: nat, arg: int, id: nat)

  type Cells = map<nat, Cell>

  /** The pointers from p on visit exactly `order`. */
  ghost predicate Listed(cells: Cells, p: Option<nat>, order: seq<nat>)
    decreases |order|
  {
    if order == [] then p == None
    else
      && p == Some(order[0]) && order[0] in cells && order[0] !in order[1..]
      && Listed(cells, cells[order[0]].next, order[1..])
  }

  ghost predicate Present(cells: Cells, order: seq<nat>) {
    forall x :: x in order ==> x in cells
  }

  function Entry(c: Cell): Timeo {
    Timeo(c.time, c.h, c.arg, c.id)
  }

  /** What the elements hold, in order. */
  ghost function Entries(cells: Cells, order: seq<nat>): seq<Timeo>
    requires Present(cells, order)
  {
    seq(|order|, i requires 0 <= i < |order| => Entry(cells[order[i]]))
  }

  lemma {:induction false} ListedPresent(cells: Cells, p: Option<nat>, order: seq<nat>)
    requires Listed(cells, p, order)
    ensures Present(cells, order)
    decreases |order|
  {
    if order != [] { ListedPresent(cells, cells[order[0]].next, order[1..]); }
  }

  lemma {:induction false} ListedFrame(cells: Cells, cells': Cells, p: Option<nat>, order: seq<nat>)
    requires Listed(cells, p, order)
    requires forall x :: x in order ==> x in cells' && (x in cells ==> cells'[x].next == cells[x].next)
    ensures Listed(cells', p, order)
    decreases |order|
  {
    if order != [] { ListedFrame(cells, cells', cells[order[0]].next, order[1..]); }
  }

  /** A part of the list from its first element on is replaced; what comes before stays. */
  lemma {:induction false} Resume(cells: Cells, cells': Cells, p: Option<nat>, before: seq<nat>, rest: seq<nat>, rest': seq<nat>)
    requires Listed(cells, p, before + rest) && rest != [] && rest' != [] && rest'[0] == rest[0]
    requires Listed(cells', Some(rest'[0]), rest')
    requires forall x :: x in before ==> x in cells && x in cells' && cells'[x].next == cells[x].next && x !in rest'
    ensures Listed(cells', p, before + rest')
    decreases |before|
  {
    if before == [] {
      assert before + rest == rest && before + rest' == rest';
    } else {
      assert (before + rest)[1..] == before[1..] + rest && (before + rest')[1..] == before[1..] + rest';
      assert before[0] in before;
      forall x | x in before[1..] ensures x in before { }
      Resume(cells, cells', cells[before[0]].next, before[1..], rest, rest');
    }
  }

  /** Elements of different parts are different. */
  lemma {:induction false} Apart(cells: Cells, p: Option<nat>, before: seq<nat>, rest: seq<nat>)
    requires Listed(cells, p, before + rest)
    ensures forall x :: x in before ==> x !in rest
    decreases |before|
  {
    if before != [] {
      assert (before + rest)[1..] == before[1..] + rest;
      Apart(cells, cells[before[0]].next, before[1..], rest);
      assert before == [before[0]] + before[1..];
    }
  }

  /** The pointer at the start of the second part. */
  lemma {:induction false} SecondPart(cells: Cells, p: Option<nat>, before: seq<nat>, rest: seq<nat>)
    requires Listed(cells, p, before + rest)
    ensures Listed(cells, if before == [] then p else if before[|before| - 1] in cells then cells[before[|before| - 1]].next else None, rest)
    decreases |before|
  {
    if before == [] {
      assert before + rest == rest;
    } else {
      assert (before + rest)[1..] == before[1..] + rest;
      SecondPart(cells, cells[before[0]].next, before[1..], rest);
      ListedPresent(cells, p, before + rest);
      assert before[|before| - 1] in before + rest;
    }
  }

  /** Passing an element that is due no later than the new one. */
  lemma InsertPasses(list: seq<Timeo>, more: seq<Timeo>, t: Timeo)
    requires list != [] && list[0].time <= t.time
    ensures more + Insert(list, t) == (more + [list[0]]) + Insert(list[1..], t.(time := t.time - list[0].time))
  {
    Regroup(more, list[0], Insert(list[1..], t.(time := t.time - list[0].time)));
  }

  lemma Regroup(a: seq<Timeo>, x: Timeo, b: seq<Timeo>)
    ensures a + ([x] + b) == (a + [x]) + b
  {
  }

  /** Passing an element that does not match. */
  lemma RemovePasses(list: seq<Timeo>, more: seq<Timeo>, h: nat, arg: int)
    requires list != [] && !(list[0].h == h && list[0].arg == arg)
    ensures more + Remove(list, h, arg) == (more + [list[0]]) + Remove(list[1..], h, arg)
  {
    Regroup(more, list[0], Remove(list[1..], h, arg));
  }

  // ----------------------------------------------------------------- splicing

  /** The element n goes between x and what follows it. */
  function Spliced(cells: Cells, x: nat, n: nat): Cells
    requires x in cells && n in cells && n != x
  {
    var follower := cells[x].next;
    var c1 := if follower.Some? && follower.value in cells && cells[follower.value].time >= cells[n].time
              then cells[follower.value := cells[follower.value].(time := cells[follower.value].time - cells[n].time)] else cells;
    c1[n := c1[n].(next := follower)][x := c1[x].(next := Some(n))]
  }

  lemma SpliceListed(cells: Cells, p: Option<nat>, before: seq<nat>, x: nat, more: seq<nat>, n: nat)
    requires Listed(cells, p, before + ([x] + more)) && n in cells && n !in before + ([x] + more)
    ensures x in cells && n != x && Listed(Spliced(cells, x, n), p, before + ([x, n] + more))
  {
    var order, rest, rest' := before + ([x] + more), [x] + more, [x, n] + more;
    assert x in order;
    ListedPresent(cells, p, order);
    SecondPart(cells, p, before, rest);
    Apart(cells, p, before, rest);
    var c := Spliced(cells, x, n);
    assert rest[1..] == more && rest'[1..] == [n] + more && ([n] + more)[1..] == more;
    forall y | y in more ensures y in order && y != n && y != x { assert y in rest[1..]; }
    ListedFrame(cells, c, cells[x].next, more);
    assert Listed(c, Some(n), [n] + more);
    assert Listed(c, Some(x), rest');
    forall y | y in before ensures y in order && y in c && c[y].next == cells[y].next && y !in rest' {
      assert y !in rest;
      assert x in rest && forall z :: z in rest' ==> z in rest || z == n;
    }
    Resume(cells, c, p, before, rest, rest');
  }

  lemma SpliceEntries(cells: Cells, p: Option<nat>, before: seq<nat>, x: nat, more: seq<nat>, n: nat)
    requires Listed(cells, p, before + ([x] + more)) && n in cells && n !in before + ([x] + more)
    requires Present(cells, before + ([x] + more)) && x in cells && n != x && Present(cells, before) && Present(cells, more)
    requires more != [] ==> cells[more[0]].time > cells[n].time
    ensures Present(Spliced(cells, x, n), before + ([x, n] + more))
    ensures Entries(Spliced(cells, x, n), before + ([x, n] + more))
      == (Entries(cells, before) + [Entry(cells[x])]) + Insert(Entries(cells, more), Entry(cells[n]))
  {
    var c := Spliced(cells, x, n);
    Spots(cells, p, before, x, more, n);
    forall y | y in before + ([x, n] + more) ensures y in c {
      assert y in before || y in more || y == x || y == n;
    }
    assert Entries(c, before) == Entries(cells, before) by {
      forall i | 0 <= i < |before| ensures c[before[i]] == cells[before[i]] { assert before[i] in before; }
    }
    SpliceTail(cells, x, more, n);
    assert Entries(c, before + ([x, n] + more)) == Entries(c, before) + ([Entry(c[x]), Entry(c[n])] + Entries(c, more));
    assert Entry(c[x]) == Entry(cells[x]);
    Regroup(Entries(cells, before), Entry(cells[x]), [Entry(c[n])] + Entries(c, more));
  }

  /** The places in a list around x are different. */
  lemma Spots(cells: Cells, p: Option<nat>, before: seq<nat>, x: nat, more: seq<nat>, n: nat)
    requires Listed(cells, p, before + ([x] + more)) && n in cells && n !in before + ([x] + more)
    ensures x in cells && cells[x].next == if more == [] then None else Some(more[0])
    ensures x !in before && x !in more && n !in before && n !in more && n != x
    ensures forall y :: y in before ==> y !in more
    ensures forall i :: 1 <= i < |more| ==> more[i] != more[0]
  {
    SecondPart(cells, p, before, [x] + more);
    Apart(cells, p, before, [x] + more);
    assert ([x] + more)[1..] == more && x in [x] + more;
    assert Listed(cells, cells[x].next, more);
    forall i | 1 <= i < |more| ensures more[i] != more[0] { assert more[i] == more[1..][i - 1]; }
    forall y | y in more ensures y in [x] + more { }
  }

  lemma SpliceTail(cells: Cells, x: nat, more: seq<nat>, n: nat)
    requires x in cells && n in cells && x != n && cells[x].next == (if more == [] then None else Some(more[0]))
    requires Present(cells, more) && x !in more && n !in more && forall i :: 1 <= i < |more| ==> more[i] != more[0]
    requires more != [] ==> cells[more[0]].time > cells[n].time
    ensures Present(Spliced(cells, x, n), more)
    ensures [Entry(Spliced(cells, x, n)[n])] + Entries(Spliced(cells, x, n), more) == Insert(Entries(cells, more), Entry(cells[n]))
    ensures Entry(Spliced(cells, x, n)[n]) == Entry(cells[n])
  {
    var c, list := Spliced(cells, x, n), Entries(cells, more);
    forall i | 0 <= i < |more|
      ensures more[i] in c && Entry(c[more[i]]) == if i == 0 then list[0].(time := list[0].time - cells[n].time) else list[i]
    {
      assert more[i] in more;
    }
    if more != [] {
      assert Insert(list, Entry(cells[n])) == [Entry(cells[n]), list[0].(time := list[0].time - cells[n].time)] + list[1..];
    }
  }

  // ------------------------------------------------------------------ unlinking

  /** The element t behind x goes. */
  function Cut(cells: Cells, x: Option<nat>, t: nat): Cells
    requires t in cells && (x.Some? ==> x.value in cells)
  {
    var follower := cells[t].next;
    var c1 := if x.Some? then cells[x.value := cells[x.value].(next := follower)] else cells;
    var c2 := if follower.Some? && follower.value in c1
              then c1[follower.value := c1[follower.value].(time := c1[follower.value].time + c1[t].time)] else c1;
    c2 - {t}
  }

  lemma CutListed(cells: Cells, p: Option<nat>, before: seq<nat>, t: nat, more: seq<nat>)
    requires Listed(cells, p, before + ([t] + more)) && Present(cells, before + ([t] + more))
    ensures t in cells && (before != [] ==> before[|before| - 1] in cells)
    ensures Listed(Cut(cells, if before == [] then None else Some(before[|before| - 1]), t),
                   if before == [] then cells[t].next else p, before + more)
  {
    var order, rest := before + ([t] + more), [t] + more;
    assert t in order && rest[1..] == more;
    SecondPart(cells, p, before, rest);
    Apart(cells, p, before, rest);
    forall y | y in more ensures y in order && y != t { assert y in rest[1..]; }
    if before == [] {
      ListedFrame(cells, Cut(cells, None, t), cells[t].next, more);
      assert before + more == more;
    } else {
      var x, b := before[|before| - 1], before[..|before| - 1];
      assert x in before && x in order && before == b + [x];
      assert before + rest == b + ([x] + rest) && before + more == b + ([x] + more);
      CutBehind(cells, p, b, x, t, more);
    }
  }

  lemma CutBehind(cells: Cells, p: Option<nat>, b: seq<nat>, x: nat, t: nat, more: seq<nat>)
    requires Listed(cells, p, b + ([x] + ([t] + more))) && x in cells && t in cells
    ensures Listed(Cut(cells, Some(x), t), p, b + ([x] + more))
  {
    var long, short, c := [x] + ([t] + more), [x] + more, Cut(cells, Some(x), t);
    ListedPresent(cells, p, b + long);
    SecondPart(cells, p, b, long);
    Apart(cells, p, b, long);
    assert long[1..] == [t] + more && long[1..][1..] == more && short[1..] == more;
    forall y | y in more ensures y in b + long && y != t && y != x {
      assert y in long[1..][1..];
    }
    ListedFrame(cells, c, cells[t].next, more);
    CutResume(cells, p, b, x, t, more);
  }

  lemma CutResume(cells: Cells, p: Option<nat>, b: seq<nat>, x: nat, t: nat, more: seq<nat>)
    requires Listed(cells, p, b + ([x] + ([t] + more))) && x in cells && t in cells && x != t
    requires Listed(Cut(cells, Some(x), t), cells[t].next, more) && x !in more
    requires Present(cells, b + ([x] + ([t] + more))) && forall y :: y in b ==> y !in [x] + ([t] + more)
    ensures Listed(Cut(cells, Some(x), t), p, b + ([x] + more))
  {
    var long, short, c := [x] + ([t] + more), [x] + more, Cut(cells, Some(x), t);
    assert short[1..] == more && long[0] == x && short[0] == x;
    forall y | y in short ensures y in long { }
    assert t in long && x in long;
    forall y | y in b ensures y in cells && y in c && c[y].next == cells[y].next && y !in short {
      assert y in b + long;
    }
    Resume(cells, c, p, b, long, short);
  }

  lemma CutEntries(cells: Cells, p: Option<nat>, before: seq<nat>, t: nat, more: seq<nat>)
    requires Listed(cells, p, before + ([t] + more)) && Present(cells, before + ([t] + more))
    requires t in cells && (before != [] ==> before[|before| - 1] in cells) && Present(cells, before) && Present(cells, [t] + more)
    ensures var c := Cut(cells, if before == [] then None else Some(before[|before| - 1]), t);
      Present(c, before + more)
      && Entries(c, before + more)
         == Entries(cells, before) + Remove(Entries(cells, [t] + more), cells[t].h, cells[t].arg)
  {
    var order, rest := before + ([t] + more), [t] + more;
    var x := if before == [] then None else Some(before[|before| - 1]);
    var c := Cut(cells, x, t);
    SecondPart(cells, p, before, rest);
    Apart(cells, p, before, rest);
    assert rest[1..] == more;
    if more != [] { assert cells[t].next == Some(more[0]); } else { assert cells[t].next == None; }
    forall y | y in more ensures y != t && y in rest { assert y in rest[1..]; }
    forall y | y in before ensures y != t && y !in more { assert t in rest && y !in rest; }
    forall y | y in before + more ensures y in c { assert y in order; }
    forall i | 1 <= i < |more| ensures more[i] != more[0] {
      assert Listed(cells, Some(more[0]), more);
      assert more[i] == more[1..][i - 1];
    }
    forall i | 0 <= i < |before| ensures Entry(c[before[i]]) == Entry(cells[before[i]]) {
      assert before[i] in before && before[i] !in more;
      if more != [] { assert more[0] in more; }
    }
    forall i | 0 <= i < |more|
      ensures Entry(c[more[i]]) == if i == 0 then Entry(cells[more[0]]).(time := cells[more[0]].time + cells[t].time) else Entry(cells[more[i]])
    {
      assert more[i] in more;
      if x.Some? { assert x.value in before && x.value !in more; }
    }
  }

  // ------------------------------------------------------------------ the list

  /** The search of sys_timeout has passed `before` and stands at rest[0]. */
  ghost predicate Searching(cells: Cells, p: Option<nat>, before: seq<nat>, rest: seq<nat>, n: nat, goal: seq<Timeo>) {
    && Listed(cells, p, before + rest) && Present(cells, before) && Present(cells, rest)
    && rest != [] && n in cells && n !in before + rest && cells[rest[0]].time <= cells[n].time
    && Entries(cells, before) + Insert(Entries(cells, rest), Entry(cells[n])) == goal
  }

  /** The new element's time counts from the element it has just passed. */
  function Passed(cells: Cells, x: nat, n: nat): Cells
    requires x in cells && n in cells && cells[x].time <= cells[n].time
  {
    cells[n := cells[n].(time := cells[n].time - cells[x].time)]
  }

  lemma PassStep(cells: Cells, p: Option<nat>, before: seq<nat>, rest: seq<nat>, n: nat, goal: seq<Timeo>)
    requires Searching(cells, p, before, rest, n, goal)
    ensures var x, c := rest[0], Passed(cells, rest[0], n);
      && x in c && n != x && n in c && Listed(c, p, before + ([x] + rest[1..])) && n !in before + ([x] + rest[1..])
      && c[x].next == (if rest[1..] == [] then None else Some(rest[1])) && Present(c, rest[1..]) && Present(c, before + [x])
      && Entries(c, before + [x]) + Insert(Entries(c, rest[1..]), Entry(c[n])) == goal
      && before + ([x] + rest[1..]) == before + [x] + rest[1..] == before + rest
  {
    var x, c := rest[0], Passed(cells, rest[0], n);
    assert rest == [x] + rest[1..];
    assert before + rest == before + [x] + rest[1..];
    assert forall y :: y in before || y in rest ==> y in before + rest;
    ListedFrame(cells, c, p, before + rest);
    SecondPart(cells, p, before, rest);
    assert Listed(cells, cells[x].next, rest[1..]);
    InsertPasses(Entries(cells, rest), Entries(cells, before), Entry(cells[n]));
    assert Entries(c, before + [x]) == Entries(cells, before) + [Entry(cells[x])];
    assert Entries(c, rest[1..]) == Entries(cells, rest)[1..];
  }

  /** The list with n in front, before a head that is due later. */
  lemma HeadInsert(cells: Cells, order: seq<nat>, n: nat)
    requires order != [] && Listed(cells, Some(order[0]), order) && Present(cells, order) && n in cells && n !in order
    requires cells[order[0]].time > cells[n].time
    ensures var h := order[0];
      var c := cells[h := cells[h].(time := cells[h].time - cells[n].time)][n := cells[n].(next := Some(h))];
      && Listed(c, Some(n), [n] + order) && Present(c, [n] + order)
      && Entries(c, [n] + order) == Insert(Entries(cells, order), Entry(cells[n]))
  {
    var h := order[0];
    var c := cells[h := cells[h].(time := cells[h].time - cells[n].time)][n := cells[n].(next := Some(h))];
    assert ([n] + order)[1..] == order;
    ListedFrame(cells, c, Some(h), order);
    forall i | 1 <= i < |order| ensures order[i] != h { assert order[i] == order[1..][i - 1]; }
  }

  /** Some timeout of the list has that handler and argument. */
  ghost predicate Matched(list: seq<Timeo>, h: nat, arg: int) {
    exists i :: 0 <= i < |list| && list[i].h == h && list[i].arg == arg
  }

  /** The search of sys_untimeout has passed `before`, has come to t and last saw prev. */
  ghost predicate Seeking(cells: Cells, before: seq<nat>, rest: seq<nat>, t: Option<nat>, prev: Option<nat>,
                          h: nat, arg: int, goal: seq<Timeo>) {
    && Present(cells, before) && Present(cells, rest) && Listed(cells, t, rest)
    && prev == (if before == [] then None else Some(before[|before| - 1]))
    && Entries(cells, before) + Remove(Entries(cells, rest), h, arg) == goal
    && !Matched(Entries(cells, before), h, arg)
  }

  lemma SeekStart(cells: Cells, first: Option<nat>, order: seq<nat>, h: nat, arg: int)
    requires Listed(cells, first, order) && Present(cells, order)
    ensures Seeking(cells, [], order, first, None, h, arg, Remove(Entries(cells, order), h, arg))
  {
    assert Entries(cells, []) == [];
  }

  lemma SeekStep(cells: Cells, before: seq<nat>, rest: seq<nat>, x: nat, prev: Option<nat>, h: nat, arg: int, goal: seq<Timeo>)
    requires Seeking(cells, before, rest, Some(x), prev, h, arg, goal)
    ensures x in cells && rest != [] && rest == [x] + rest[1..] && before + rest == before + [x] + rest[1..]
    ensures !(cells[x].h == h && cells[x].arg == arg) ==>
      Seeking(cells, before + [x], rest[1..], cells[x].next, Some(x), h, arg, goal)
    ensures cells[x].h == h && cells[x].arg == arg ==>
      Present(cells, before + rest) && Matched(Entries(cells, before + rest), h, arg)
  {
    assert rest == [x] + rest[1..];
    if cells[x].h == h && cells[x].arg == arg {
      forall y | y in before + rest ensures y in cells { assert y in before || y in rest; }
      assert Entries(cells, before + rest)[|before|] == Entry(cells[x]);
    }
    if !(cells[x].h == h && cells[x].arg == arg) {
      RemoveStep(cells, before, x, rest[1..], h, arg);
      var list := Entries(cells, before + [x]);
      forall i | 0 <= i < |list| ensures !(list[i].h == h && list[i].arg == arg) {
        if i < |before| { assert list[i] == Entries(cells, before)[i]; }
      }
    }
  }

  lemma SeekEnd(cells: Cells, before: seq<nat>, rest: seq<nat>, prev: Option<nat>, h: nat, arg: int, goal: seq<Timeo>)
    requires Seeking(cells, before, rest, None, prev, h, arg, goal)
    ensures rest == [] && before + rest == before && Entries(cells, before) == goal
  {
    assert Remove(Entries(cells, rest), h, arg) == [];
  }

  lemma RemoveStep(cells: Cells, before: seq<nat>, x: nat, more: seq<nat>, h: nat, arg: int)
    requires Present(cells, before) && Present(cells, [x] + more) && x in cells && !(cells[x].h == h && cells[x].arg == arg)
    ensures Present(cells, before + [x]) && Present(cells, more)
    ensures Entries(cells, before + [x]) + Remove(Entries(cells, more), h, arg)
      == Entries(cells, before) + Remove(Entries(cells, [x] + more), h, arg)
  {
    forall y | y in more ensures y in cells { assert y in [x] + more; }
    RemovePasses(Entries(cells, [x] + more), Entries(cells, before), h, arg);
    assert Entries(cells, before + [x]) == Entries(cells, before) + [Entry(cells[x])];
    assert Entries(cells, [x] + more)[1..] == Entries(cells, more);
  }

  lemma NeighboursDiffer(cells: Cells, p: Option<nat>, before: seq<nat>, x: nat, more: seq<nat>)
    requires Listed(cells, p, before + ([x] + more)) && x in cells
    ensures before != [] ==> before[|before| - 1] != x && before[|before| - 1] in cells
    ensures cells[x].next.Some? ==> cells[x].next.value != x && cells[x].next.value in cells
  {
    ListedPresent(cells, p, before + ([x] + more));
    SecondPart(cells, p, before, [x] + more);
    Apart(cells, p, before, [x] + more);
    assert ([x] + more)[1..] == more && x in [x] + more;
    if before != [] {
      assert before[|before| - 1] in before && before[|before| - 1] in before + ([x] + more);
    }
    if more != [] {
      assert more[0] in more && more[0] in before + ([x] + more);
    }
  }

  class Timers {
    var first: Option<nat>     // next_timeout
    var cells: Cells
    var pool: set<nat>         // the free elements of MEMP_SYS_TIMEOUT
    ghost var order: seq<nat>

    ghost predicate Valid()
      reads this
    {
      Listed(cells, first, order) && Present(cells, order) && pool !! cells.Keys
    }

    ghost function Abs(): seq<Timeo>
      requires Valid()
      reads this
    {
      Entries(cells, order)
    }

    constructor (elements: set<nat>)
      ensures Valid() && Abs() == [] && pool == elements
    {
      first, cells, pool, order := None, map[], elements, [];
    }

    /** sys_timeout */
    method Timeout(msecs: nat, h: nat, arg: int, id: nat)
      requires Valid()
      modifies this
      ensures Valid()
      ensures old(pool) == {} ==> Abs() == old(Abs()) && pool == {}
      ensures old(pool) != {} ==>
        && Abs() == Insert(old(Abs()), Timeo(msecs, h, arg, id))
        && exists n :: n in old(pool) && pool == old(pool) - {n}
    {
      if pool == {} {
        return;
      }
      var n :| n in pool;
      pool := pool - {n};
      ghost var was := cells;
      cells := cells[n := Cell(None, msecs, h, arg, id)];
      ListedFrame(was, cells, first, order);
      assert Entries(cells, order) == Entries(was, order);
      if first.None? {
        assert order == [];
        first, order := Some(n), [n];
        assert [n][1..] == [];
        return;
      }
      if cells[first.value].time > msecs {
        HeadInsert(cells, order, n);
        var head := first.value;
        cells := cells[head := cells[head].(time := cells[head].time - msecs)];
        cells := cells[n := cells[n].(next := first)];
        first := Some(n);
        order := [n] + order;
      } else {
        Search(n);
      }
    }

    /** The loop of sys_timeout: find the place of n behind the head and link it in. */
    method Search(n: nat)
      requires Valid() && first.Some? && n in cells && n !in order && cells[first.value].time <= cells[n].time
      modifies `cells, `order
      ensures Valid() && Abs() == Insert(old(Abs()), Entry(old(cells)[n])) && cells.Keys == old(cells).Keys
    {
      var t := first.value;
      ghost var before, rest, goal := [], order, Insert(Abs(), Entry(cells[n]));
      assert [] + rest == rest && Entries(cells, []) + goal == goal;
      while true
        invariant order == before + rest && Searching(cells, first, before, rest, n, goal) && t == rest[0]
        invariant cells.Keys == old(cells).Keys
        decreases |rest|
      {
        PassStep(cells, first, before, rest, n, goal);
        cells := cells[n := cells[n].(time := cells[n].time - cells[t].time)];
        var follower := cells[t].next;
        if follower.None? || cells[follower.value].time > cells[n].time {
          LinkBehind(t, n, before, rest[1..], goal);
          return;
        }
        t := follower.value;
        before, rest := before + [rest[0]], rest[1..];
        assert before + rest == order;
      }
    }

    method LinkBehind(t: nat, n: nat, ghost before: seq<nat>, ghost more: seq<nat>, ghost goal: seq<Timeo>)
      requires Listed(cells, first, before + ([t] + more)) && n in cells && n !in before + ([t] + more) && t in cells && n != t
      requires cells[t].next == if more == [] then None else Some(more[0])
      requires Present(cells, more) && (more != [] ==> cells[more[0]].time > cells[n].time)
      requires Present(cells, before + [t]) && Entries(cells, before + [t]) + Insert(Entries(cells, more), Entry(cells[n])) == goal
      modifies `cells, `order
      ensures Listed(cells, first, order) && Present(cells, order) && Entries(cells, order) == goal
      ensures cells.Keys == old(cells).Keys
    {
      forall y | y in before ensures y in cells { assert y in before + [t]; }
      assert Entries(cells, before + [t]) == Entries(cells, before) + [Entry(cells[t])];
      ListedPresent(cells, first, before + ([t] + more));
      SpliceListed(cells, first, before, t, more, n);
      SpliceEntries(cells, first, before, t, more, n);
      var follower := cells[t].next;
      if follower.Some? {
        cells := cells[follower.value := cells[follower.value].(time := cells[follower.value].time - cells[n].time)];
      }
      cells := cells[n := cells[n].(next := follower)];
      cells := cells[t := cells[t].(next := Some(n))];
      order := before + ([t, n] + more);
    }

    /** sys_untimeout */
    method Untimeout(h: nat, arg: int)
      requires Valid()
      modifies this
      ensures Valid() && Abs() == Remove(old(Abs()), h, arg)
      ensures Matched(old(Abs()), h, arg) ==> exists n :: n in old(cells) && pool == old(pool) + {n}
      ensures !Matched(old(Abs()), h, arg) ==> pool == old(pool)
    {
      var t, prev := first, None;
      ghost var before, rest, goal := [], order, Remove(Abs(), h, arg);
      SeekStart(cells, first, order, h, arg);
      assert [] + rest == rest;
      while t.Some?
        invariant cells == old(cells) && first == old(first) && order == old(order) && pool == old(pool)
        invariant order == before + rest && Seeking(cells, before, rest, t, prev, h, arg, goal)
        decreases |rest|
      {
        var x := t.value;
        SeekStep(cells, before, rest, x, prev, h, arg, goal);
        if cells[x].h == h && cells[x].arg == arg {
          DropAt(prev, x, before, rest[1..]);
          return;
        }
        prev, t := t, cells[x].next;
        before, rest := before + [x], rest[1..];
      }
      SeekEnd(cells, before, rest, prev, h, arg, goal);
    }

    method DropAt(prev: Option<nat>, x: nat, ghost before: seq<nat>, ghost more: seq<nat>)
      requires Valid() && order == before + ([x] + more) && x in cells && Present(cells, before) && Present(cells, [x] + more)
      requires prev == if before == [] then None else Some(before[|before| - 1])
      modifies this
      ensures Valid() && pool == old(pool) + {x}
      ensures Abs() == Entries(old(cells), before) + Remove(Entries(old(cells), [x] + more), old(cells)[x].h, old(cells)[x].arg)
    {
      CutListed(cells, first, before, x, more);
      CutEntries(cells, first, before, x, more);
      NeighboursDiffer(cells, first, before, x, more);
      Drop(prev, x);
      order := before + more;
      pool := pool + {x};
    }

    /** Unlink x and hand its time to what follows. */
    method Drop(prev: Option<nat>, x: nat)
      requires x in cells && (prev.Some? ==> prev.value in cells && prev.value != x)
      requires cells[x].next.Some? ==> cells[x].next.value in cells && cells[x].next.value != x
      modifies `cells, `first
      ensures cells == Cut(old(cells), prev, x)
      ensures first == if prev.None? then old(cells)[x].next else old(first)
    {
      if prev.None? {
        first := cells[x].next;
      } else {
        cells := cells[prev.value := cells[prev.value].(next := cells[x].next)];
      }
      var follower := cells[x].next;
      if follower.Some? {
        cells := cells[follower.value := cells[follower.value].(time := cells[follower.value].time + cells[x].time)];
      }
      cells := cells - {x};
    }

    /**
      One pass of sys_timeouts_mbox_fetch.  `message` tells whether the mailbox gave a
      message, `elapsed` how long that took.  Without a message the first timeout is taken
      off the list and returned, for its handler to be called; then comes the next pass.
    */
    method Fetch(message: bool, elapsed: nat) returns (run: Option<Timeo>)
      requires Valid()
      requires !message ==> first.Some?
      modifies this
      ensures Valid()
      ensures message ==> run == None && Abs() == Elapse(old(Abs()), elapsed) && pool == old(pool)
      ensures !message ==>
        && old(Abs()) != [] && run == Some(old(Abs())[0]) && Abs() == old(Abs())[1..]
        && exists n :: n in old(cells) && pool == old(pool) + {n}
    {
      if first.None? {
        run := None;
      } else if !message {
        var x := first.value;
        run := Some(Entry(cells[x]));
        ghost var was := cells;
        first := cells[x].next;
        cells := cells - {x};
        pool := pool + {x};
        forall y | y in order[1..] ensures y in cells { assert y in order; }
        ListedFrame(was, cells, first, order[1..]);
        assert Entries(cells, order[1..]) == Entries(was, order)[1..];
        order := order[1..];
      } else {
        run := None;
        var x := first.value;
        ghost var was := cells;
        cells := cells[x := cells[x].(time := if elapsed < cells[x].time then cells[x].time - elapsed else 0)];
        ListedFrame(was, cells, first, order);
        forall i | 1 <= i < |order| ensures order[i] != x { assert order[i] == order[1..][i - 1]; }
        assert Entries(cells, order) == Elapse(Entries(was, order), elapsed);
      }
    }
  }
}
