/**
  Reference counts of pbufs over any sequence of operations.

  `held` counts the references that callers hold.  The invariant says that every
  reference count is the held references plus the links from other pbufs, that it
  is positive, and that links do not form cycles; it follows that exactly the
  pbufs reachable from held references are allocated.
*/
module PbufRefs {
  import opened Common
  import opened PbufStore

  type Rank = map<nat, nat>

  /** Links lead to allocated pbufs of smaller rank, so there are no cycles. */
  ghost predicate Ranked(s: Store, rank: Rank) {
    forall q :: q in s ==> LinkOk(s, rank, q)
  }

  predicate LinkOk(s: Store, rank: Rank, q: nat)
    requires q in s
  {
    q in rank && (s[q].next.Some? ==>
      s[q].next.value in s && s[q].next.value in rank && rank[s[q].next.value] < rank[q])
  }

  ghost function Incoming(s: Store, p: nat): set<nat> {
    set q | q in s && s[q].next == Some(p)
  }

  ghost predicate CountOk(s: Store, held: multiset<nat>, p: nat)
    requires p in s
  {
    s[p].ref == held[p] + |Incoming(s, p)| && s[p].ref > 0
  }

  ghost predicate RefInv(s: Store, held: multiset<nat>, rank: Rank) {
    && Ranked(s, rank)
    && (forall p {:trigger CountOk(s, held, p)} :: p in s ==> CountOk(s, held, p))
    && (forall p :: p in held ==> p in s)
  }

  // ---------------------------------------------------------------- chains

  /** The chain that starts at p. */
  ghost function Chain(s: Store, rank: Rank, p: nat): (ps: seq<nat>)
    requires Ranked(s, rank) && p in s
    ensures p in rank && IsChain(s, Some(p), ps)
    ensures forall q :: q in ps ==> q in s && q in rank && rank[q] <= rank[p]
    decreases if p in rank then rank[p] else 0
  {
    assert LinkOk(s, rank, p);
    match s[p].next
    case None => [p]
    case Some(n) =>
      var rest := Chain(s, rank, n);
      assert ([p] + rest)[1..] == rest;
      [p] + rest
  }

  // ------------------------------------------------------------- pbuf_free

  /** What pbuf_free leaves: p loses a reference; at zero it goes and its successor loses one. */
  function FreeStore(s: Store, p: nat): Store
    requires p in s
    decreases |s.Keys|
  {
    if s[p].ref > 1 then s[p := s[p].(ref := s[p].ref - 1)]
    else
      var s1 := s - {p};
      Smaller(s, p);
      if s[p].next.Some? && s[p].next.value in s1 then FreeStore(s1, s[p].next.value) else s1
  }

  /** The pbufs that pbuf_free releases, in order. */
  function Released(s: Store, p: nat): seq<nat>
    requires p in s
    decreases |s.Keys|
  {
    if s[p].ref > 1 then []
    else
      var s1 := s - {p};
      Smaller(s, p);
      [p] + if s[p].next.Some? && s[p].next.value in s1 then Released(s1, s[p].next.value) else []
  }

  lemma Smaller(s: Store, p: nat)
    requires p in s
    ensures |(s - {p}).Keys| < |s.Keys|
  {
    assert (s - {p}).Keys == s.Keys - {p};
    assert s.Keys == (s.Keys - {p}) + {p};
  }

  /** Giving up a reference that leaves others. */
  lemma DropKeeps(s: Store, held: multiset<nat>, rank: Rank, p: nat)
    requires RefInv(s, held, rank) && p in held && s[p].ref > 1
    ensures RefInv(s[p := s[p].(ref := s[p].ref - 1)], held - multiset{p}, rank)
  {
    var s' := s[p := s[p].(ref := s[p].ref - 1)];
    forall q | q in s' ensures LinkOk(s', rank, q) { assert LinkOk(s, rank, q); }
    forall q | q in s' ensures CountOk(s', held - multiset{p}, q) {
      assert CountOk(s, held, q);
      assert Incoming(s', q) == Incoming(s, q);
    }
  }

  /** The references left when p, which nobody else refers to, is gone: its link becomes one. */
  function Passed(s: Store, held: multiset<nat>, p: nat): multiset<nat>
    requires p in s
  {
    held - multiset{p} + if s[p].next.Some? then multiset{s[p].next.value} else multiset{}
  }

  lemma PassKeeps(s: Store, held: multiset<nat>, rank: Rank, p: nat)
    requires RefInv(s, held, rank) && p in held && s[p].ref <= 1
    ensures RefInv(s - {p}, Passed(s, held, p), rank)
    ensures s[p].next.Some? ==> s[p].next.value in s - {p}
  {
    var s', held' := s - {p}, Passed(s, held, p);
    assert CountOk(s, held, p) && LinkOk(s, rank, p);
    assert held[p] == 1 && Incoming(s, p) == {};
    forall q | q in s' ensures LinkOk(s', rank, q) {
      assert LinkOk(s, rank, q);
      assert q !in Incoming(s, p);
    }
    forall q | q in s' ensures CountOk(s', held', q) {
      assert CountOk(s, held, q);
      if s[p].next == Some(q) {
        assert Incoming(s, q) == Incoming(s', q) + {p};
      } else {
        assert Incoming(s, q) == Incoming(s', q);
      }
    }
  }

  /** pbuf_free keeps the invariant, with one reference to p less. */
  lemma {:induction false} FreeKeeps(s: Store, held: multiset<nat>, rank: Rank, p: nat)
    requires RefInv(s, held, rank) && p in held
    ensures RefInv(FreeStore(s, p), held - multiset{p}, rank)
    decreases |s.Keys|
  {
    if s[p].ref > 1 {
      DropKeeps(s, held, rank, p);
    } else {
      PassKeeps(s, held, rank, p);
      Smaller(s, p);
      if s[p].next.Some? {
        var n := s[p].next.value;
        FreeKeeps(s - {p}, Passed(s, held, p), rank, n);
        assert Passed(s, held, p) - multiset{n} == held - multiset{p};
      } else {
        assert Passed(s, held, p) == held - multiset{p};
      }
    }
  }

  /** The first k pbufs of a chain have one reference each, and the next, if any, has more. */
  predicate LeadingRun(s: Store, ps: seq<nat>, k: nat) {
    && k <= |ps| && (forall i :: 0 <= i < k ==> ps[i] in s && s[ps[i]].ref <= 1)
    && (k < |ps| ==> ps[k] in s && s[ps[k]].ref > 1)
  }

  /** pbuf_free releases exactly the leading run of pbufs that nobody else refers to. */
  lemma {:induction false} ReleasedLeads(s: Store, p: nat, ps: seq<nat>)
    requires p in s && IsChain(s, Some(p), ps)
    ensures LeadingRun(s, ps, |Released(s, p)|) && Released(s, p) == ps[..|Released(s, p)|]
    decreases |ps|
  {
    var rest := ps[1..];
    if s[p].ref <= 1 {
      Smaller(s, p);
      ChainIn(s, s[p].next, rest);
      ChainFrame(s, s - {p}, s[p].next, rest);
      if rest != [] {
        ReleasedLeads(s - {p}, rest[0], rest);
        RunExtends(s, p, rest, |Released(s - {p}, rest[0])|);
        assert ps == [p] + rest;
      }
    }
  }

  lemma RunExtends(s: Store, p: nat, rest: seq<nat>, k: nat)
    requires p in s && s[p].ref <= 1 && LeadingRun(s - {p}, rest, k)
    ensures LeadingRun(s, [p] + rest, k + 1)
  {
  }

  /** What pbuf_free does not release is unchanged but for reference counts. */
  lemma {:induction false} FreeFrame(s: Store, p: nat)
    requires p in s
    ensures FreeStore(s, p).Keys == s.Keys - set q | q in Released(s, p)
    ensures forall q :: q in FreeStore(s, p) ==> q in s && FreeStore(s, p)[q].(ref := 0) == s[q].(ref := 0)
    decreases |s.Keys|
  {
    if s[p].ref <= 1 {
      Smaller(s, p);
      var s1 := s - {p};
      if s[p].next.Some? && s[p].next.value in s1 {
        FreeFrame(s1, s[p].next.value);
      }
    }
  }

  /** Of what pbuf_free leaves, only the pbuf of the chain at which it stops is changed: it has one
      reference less. */
  lemma {:induction false} FreeCounts(s: Store, p: nat, ps: seq<nat>, q: nat)
    requires p in s && IsChain(s, Some(p), ps) && q in FreeStore(s, p)
    ensures q in s && |Released(s, p)| <= |ps|
    ensures var k := |Released(s, p)|;
      FreeStore(s, p)[q] == if k < |ps| && q == ps[k] then s[q].(ref := s[q].ref - 1) else s[q]
    decreases |ps|
  {
    if s[p].ref <= 1 {
      var rest := ps[1..];
      Smaller(s, p);
      ChainIn(s, s[p].next, rest);
      ChainFrame(s, s - {p}, s[p].next, rest);
      if rest != [] {
        FreeCounts(s - {p}, rest[0], rest, q);
      }
    }
  }

  // ---------------------------------------------- allocated means reachable

  /** x is on the chain of some pbuf that a caller holds. */
  ghost predicate Reachable(s: Store, held: multiset<nat>, rank: Rank, x: nat)
    requires Ranked(s, rank)
  {
    exists q :: q in held && q in s && x in Chain(s, rank, q)
  }

  lemma {:induction false} ChainHead(s: Store, rank: Rank, p: nat)
    requires Ranked(s, rank) && p in s
    ensures p in Chain(s, rank, p)
  {
    assert LinkOk(s, rank, p);
  }

  lemma {:induction false} ChainExtends(s: Store, rank: Rank, q: nat, y: nat, x: nat)
    requires Ranked(s, rank) && q in s && y in Chain(s, rank, q) && s[y].next == Some(x)
    ensures x in Chain(s, rank, q)
    decreases rank[q]
  {
    assert LinkOk(s, rank, q);
    if q == y {
      ChainHead(s, rank, x);
    } else {
      ChainExtends(s, rank, s[q].next.value, y, x);
    }
  }

  /** Every allocated pbuf is reachable from a held reference: nothing leaks. */
  lemma {:induction false} NothingLeaks(s: Store, held: multiset<nat>, rank: Rank, x: nat, room: set<nat>)
    requires RefInv(s, held, rank) && x in s
    requires forall q :: q in s && rank[q] >= rank[x] ==> q in room
    ensures Reachable(s, held, rank, x)
    decreases |room|
  {
    assert CountOk(s, held, x) && LinkOk(s, rank, x);
    if x in held {
      ChainHead(s, rank, x);
    } else {
      var y :| y in Incoming(s, x);
      assert LinkOk(s, rank, y);
      assert |room - {x}| < |room|;
      NothingLeaks(s, held, rank, y, room - {x});
      var q :| q in held && q in s && y in Chain(s, rank, q);
      ChainExtends(s, rank, q, y, x);
    }
  }

  /** Some rank shows that links are acyclic, and all counts are right. */
  ghost predicate Consistent(s: Store, held: multiset<nat>) {
    exists rank :: RefInv(s, held, rank)
  }

  // --------------------------------------------------------------- pbuf_ref

  function RefStore(s: Store, p: nat): Store
    requires p in s
  {
    s[p := s[p].(ref := s[p].ref + 1)]
  }

  lemma RefKeeps(s: Store, held: multiset<nat>, rank: Rank, p: nat)
    requires RefInv(s, held, rank) && p in s
    ensures RefInv(RefStore(s, p), held + multiset{p}, rank)
  {
    var s' := RefStore(s, p);
    forall q | q in s' ensures LinkOk(s', rank, q) { assert LinkOk(s, rank, q); }
    forall q | q in s' ensures CountOk(s', held + multiset{p}, q) {
      assert CountOk(s, held, q);
      assert Incoming(s', q) == Incoming(s, q);
    }
  }

  // ------------------------------------------------------ pbuf_cat, pbuf_chain

  /** Append t to the chain hs: every tot_len grows, the last pbuf links to t. */
  function CatStore(s: Store, hs: seq<nat>, t: nat, add: int): Store
    requires hs != [] && forall q :: q in hs ==> q in s
    decreases |hs|
  {
    var p := hs[0];
    if |hs| == 1 then s[p := s[p].(totLen := s[p].totLen + add, next := Some(t))]
    else CatStore(s[p := s[p].(totLen := s[p].totLen + add)], hs[1..], t, add)
  }

  predicate Repeats(hs: seq<nat>) {
    exists i, j :: 0 <= i < j < |hs| && hs[i] == hs[j]
  }

  lemma {:induction false} ChainDistinct(s: Store, p: Option<nat>, ps: seq<nat>)
    requires IsChain(s, p, ps)
    ensures !Repeats(ps)
    decreases |ps|
  {
    if ps != [] {
      ChainDistinct(s, s[ps[0]].next, ps[1..]);
      forall i, j | 0 <= i < j < |ps| ensures ps[i] != ps[j] {
        if i > 0 { assert ps[1..][i - 1] != ps[1..][j - 1]; } else { assert ps[j] == ps[1..][j - 1]; }
      }
    }
  }

  lemma {:induction false} CatAt(s: Store, hs: seq<nat>, t: nat, add: int, q: nat)
    requires hs != [] && (forall x :: x in hs ==> x in s) && !Repeats(hs)
    ensures var s' := CatStore(s, hs, t, add);
      && s'.Keys == s.Keys
      && (q in s && q !in hs ==> s'[q] == s[q])
      && (q in hs ==> s'[q] == s[q].(totLen := s[q].totLen + add,
                                     next := if q == hs[|hs| - 1] then Some(t) else s[q].next))
    decreases |hs|
  {
    var p := hs[0];
    if |hs| > 1 {
      var s1 := s[p := s[p].(totLen := s[p].totLen + add)];
      forall i, j | 0 <= i < j < |hs[1..]| ensures hs[1..][i] != hs[1..][j] {
        assert hs[i + 1] != hs[j + 1];
      }
      CatAt(s1, hs[1..], t, add, q);
      assert hs[1..][|hs| - 2] == hs[|hs| - 1];
      forall j | 0 <= j < |hs[1..]| ensures hs[1..][j] != p {
        assert hs[0] != hs[j + 1];
      }
    }
  }

  /** Everything that leads to the end of the first chain is ranked above the second. */
  ghost function CatRank(s: Store, rank: Rank, last: nat, t: nat): Rank
    requires Ranked(s, rank) && t in s && t in rank
  {
    map q | q in s :: rank[q] + if last in Chain(s, rank, q) then rank[t] + 1 else 0
  }

  /** pbuf_cat takes over the caller's reference to t. */
  lemma CatKeeps(s: Store, held: multiset<nat>, rank: Rank, hs: seq<nat>, t: nat, add: int)
    requires RefInv(s, held, rank) && t in held
    requires hs != [] && IsChain(s, Some(hs[0]), hs)
    requires hs[|hs| - 1] !in Chain(s, rank, t)
    ensures (forall q :: q in hs ==> q in s)
    ensures RefInv(CatStore(s, hs, t, add), held - multiset{t}, CatRank(s, rank, hs[|hs| - 1], t))
  {
    ChainIn(s, Some(hs[0]), hs);
    ChainDistinct(s, Some(hs[0]), hs);
    ChainSuffix(s, Some(hs[0]), hs, |hs| - 1);
    var last := hs[|hs| - 1];
    var s', rank' := CatStore(s, hs, t, add), CatRank(s, rank, last, t);
    CatAt(s, hs, t, add, t);
    forall q | q in s'
      ensures LinkOk(s', rank', q) && CountOk(s', held - multiset{t}, q)
    {
      CatAt(s, hs, t, add, q);
      assert LinkOk(s, rank, q) && CountOk(s, held, q);
      if q != last && s[q].next.Some? {
        ChainStep(s, rank, q, last);
      }
      ChainHead(s, rank, last);
      CatIncoming(s, hs, t, add, q);
    }
  }

  lemma ChainStep(s: Store, rank: Rank, q: nat, x: nat)
    requires Ranked(s, rank) && q in s && s[q].next.Some? && x != q
    ensures s[q].next.value in s && (x in Chain(s, rank, q) <==> x in Chain(s, rank, s[q].next.value))
  {
    assert LinkOk(s, rank, q);
  }

  lemma CatIncoming(s: Store, hs: seq<nat>, t: nat, add: int, q: nat)
    requires hs != [] && (forall x :: x in hs ==> x in s) && !Repeats(hs)
    requires s[hs[|hs| - 1]].next == None
    ensures |Incoming(CatStore(s, hs, t, add), q)| == |Incoming(s, q)| + if q == t then 1 else 0
  {
    var s', last := CatStore(s, hs, t, add), hs[|hs| - 1];
    forall x | x in s
      ensures x in s' && s'[x].next == if x == last then Some(t) else s[x].next
    {
      CatAt(s, hs, t, add, x);
    }
    CatAt(s, hs, t, add, last);
    if q == t {
      assert Incoming(s', q) == Incoming(s, q) + {last};
    } else {
      assert Incoming(s', q) == Incoming(s, q);
    }
  }

  // ---------------------------------------------- pbuf_dechain, pbuf_realloc

  /** Cutting a link hands its reference to the caller. */
  function Unlink(s: Store, p: nat): Store
    requires p in s
  {
    s[p := s[p].(next := None)]
  }

  lemma UnlinkKeeps(s: Store, held: multiset<nat>, rank: Rank, p: nat)
    requires RefInv(s, held, rank) && p in s && s[p].next.Some?
    ensures RefInv(Unlink(s, p), held + multiset{s[p].next.value}, rank)
  {
    var s', n := Unlink(s, p), s[p].next.value;
    assert LinkOk(s, rank, p);
    forall q | q in s' ensures LinkOk(s', rank, q) && CountOk(s', held + multiset{n}, q) {
      assert LinkOk(s, rank, q) && CountOk(s, held, q);
      if q == n {
        assert Incoming(s, q) == Incoming(s', q) + {p};
      } else {
        assert Incoming(s, q) == Incoming(s', q);
      }
    }
  }

  /** Lengths and bytes have no part in the invariant. */
  lemma LengthsIrrelevant(s: Store, s': Store, held: multiset<nat>, rank: Rank)
    requires RefInv(s, held, rank) && s'.Keys == s.Keys
    requires forall q :: q in s ==> s'[q].next == s[q].next && s'[q].ref == s[q].ref
    ensures RefInv(s', held, rank)
  {
    forall q | q in s' ensures LinkOk(s', rank, q) && CountOk(s', held, q) {
      assert LinkOk(s, rank, q) && CountOk(s, held, q);
      assert Incoming(s', q) == Incoming(s, q);
    }
  }

  /** Freeing the tail before cutting the link (as pbuf_realloc does) or after is the same. */
  lemma {:induction false} FreeThenUnlink(s: Store, rank: Rank, p: nat, n: nat)
    requires Ranked(s, rank) && p in s && n in s && rank[n] < rank[p]
    ensures p in FreeStore(s, n)
    ensures FreeStore(Unlink(s, p), n) == Unlink(FreeStore(s, n), p)
    decreases |s.Keys|
  {
    FreeThenUnlinkFrom(s, s, rank, p, n);
  }

  lemma {:induction false} FreeThenUnlinkFrom(s: Store, whole: Store, rank: Rank, p: nat, n: nat)
    requires Ranked(whole, rank) && p in s && n in s && p in whole && n in whole && rank[n] < rank[p]
    requires forall q :: q in s ==> q in whole && s[q] == whole[q]
    ensures p in FreeStore(s, n)
    ensures FreeStore(Unlink(s, p), n) == Unlink(FreeStore(s, n), p)
    decreases |s.Keys|
  {
    assert LinkOk(whole, rank, n);
    if s[n].ref <= 1 {
      Smaller(s, n);
      var s1 := s - {n};
      assert Unlink(s, p) - {n} == Unlink(s1, p);
      if s[n].next.Some? && s[n].next.value in s1 {
        FreeThenUnlinkFrom(s1, whole, rank, p, s[n].next.value);
      }
    }
  }

  // -------------------------------------------------------------- pbuf_alloc

  /** `s` is `s0` with a new chain `ps` that nobody refers to but the caller. */
  ghost predicate IsFresh(s0: Store, s: Store, ps: seq<nat>) {
    && ps != [] && IsChain(s, Some(ps[0]), ps)
    && s.Keys == s0.Keys + (set q | q in ps)
    && (forall q :: q in s0 ==> s[q] == s0[q] && q !in ps)
    && (forall q :: q in ps ==> s[q].ref == 1)
  }

  lemma ShorterFresh(s0: Store, s: Store, ps: seq<nat>)
    requires IsFresh(s0, s, ps) && |ps| > 1 && IsChain(s - {ps[0]}, Some(ps[1]), ps[1..])
    ensures IsFresh(s0, s - {ps[0]}, ps[1..])
  {
    var s1 := s - {ps[0]};
    assert ps == [ps[0]] + ps[1..];
    forall q ensures q in s1.Keys <==> q in s0.Keys + (set x | x in ps[1..]) {
      assert q in ps <==> q == ps[0] || q in ps[1..];
    }
  }

  /** Freeing a new chain gives back all of it and leaves the store as it was. */
  lemma {:induction false} FreeFresh(s0: Store, s: Store, ps: seq<nat>)
    requires IsFresh(s0, s, ps)
    ensures FreeStore(s, ps[0]) == s0 && Released(s, ps[0]) == ps
    decreases |ps|
  {
    var p := ps[0];
    var s1 := s - {p};
    ChainIn(s, Some(p), ps);
    assert s[p].ref == 1;
    if |ps| == 1 {
      ChainSuffix(s, Some(p), ps, 0);
      assert ps == [p] && s1 == s0;
    } else {
      assert ps[1] in ps[1..] && ps[1] in s1;
      ChainSuffix(s, Some(p), ps, 0);
      ChainSuffix(s, Some(p), ps, 1);
      ChainFrame(s, s1, Some(ps[1]), ps[1..]);
      ShorterFresh(s0, s, ps);
      FreeFresh(s0, s1, ps[1..]);
      assert ps[1..][0] == ps[1] && s[p].next == Some(ps[1]);
      assert FreeStore(s, p) == FreeStore(s1, ps[1]) == s0;
      assert Released(s, p) == [p] + Released(s1, ps[1]) == [p] + ps[1..] == ps;
    }
  }

  /** A new chain comes with one reference, to its first pbuf. */
  lemma FreshKeeps(s0: Store, held: multiset<nat>, rank: Rank, s: Store, ps: seq<nat>)
    requires RefInv(s0, held, rank) && IsFresh(s0, s, ps)
    ensures Consistent(s, held + multiset{ps[0]})
  {
    ChainIn(s, Some(ps[0]), ps);
    ChainDistinct(s, Some(ps[0]), ps);
    var rank' := map q | q in s :: if q in s0 then rank[q] else |ps| - Index(ps, q);
    var held' := held + multiset{ps[0]};
    forall q | q in s ensures LinkOk(s, rank', q) && CountOk(s, held', q) {
      if q in s0 {
        assert LinkOk(s0, rank, q) && CountOk(s0, held, q);
        assert q !in ps;
        forall x | x in s && s[x].next == Some(q) ensures x in s0 {
          if x in ps { ChainSuffix(s, Some(ps[0]), ps, Index(ps, x)); }
        }
        assert Incoming(s, q) == Incoming(s0, q);
      } else {
        var i := Index(ps, q);
        ChainSuffix(s, Some(ps[0]), ps, i);
        FreshIncoming(s0, rank, s, ps, i);
        assert q !in held;
      }
    }
    assert RefInv(s, held', rank');
  }

  function Index(ps: seq<nat>, q: nat): (i: nat)
    requires q in ps
    ensures i < |ps| && ps[i] == q
  {
    if ps[0] == q then 0 else 1 + Index(ps[1..], q)
  }

  lemma FreshIncoming(s0: Store, rank: Rank, s: Store, ps: seq<nat>, i: nat)
    requires Ranked(s0, rank) && IsFresh(s0, s, ps) && i < |ps| && !Repeats(ps)
    ensures Incoming(s, ps[i]) == if i == 0 then {} else {ps[i - 1]}
  {
    ChainIn(s, Some(ps[0]), ps);
    forall x | x in s0 ensures s0[x].next != Some(ps[i]) {
      assert LinkOk(s0, rank, x);
    }
    forall x | x in s && s[x].next == Some(ps[i]) ensures i > 0 && x == ps[i - 1] {
      if x !in s0 {
        var j := Index(ps, x);
        ChainSuffix(s, Some(ps[0]), ps, j);
        assert j + 1 < |ps| && ps[j + 1] == ps[i];
      }
    }
    if i > 0 { ChainSuffix(s, Some(ps[0]), ps, i - 1); }
  }

  // ----------------------------------------------------------- any sequence of calls

  datatype State = State(s: Store, held: multiset<nat>)

  datatype Op =
    | Alloc(ps: seq<nat>)                 // pbuf_alloc returned the chain ps
    | Ref(p: nat)                         // pbuf_ref
    | Free(p: nat)                        // pbuf_free by a caller that holds a reference
    | Cat(hs: seq<nat>, t: nat)           // pbuf_cat of the chain hs and t
    | ChainOn(hs: seq<nat>, t: nat)       // pbuf_chain of the chain hs and t
    | Cut(p: nat)                         // pbuf_dechain, or the end of pbuf_realloc
    | Relength                            // payload bytes and length fields change

  /** `path` follows next pointers of allocated pbufs from its first element to its last, which need
      not be allocated itself. */
  ghost predicate IsPath(s: Store, path: seq<nat>) {
    path != [] && forall k :: 0 <= k < |path| - 1 ==> path[k] in s && s[path[k]].next == Some(path[k + 1])
  }

  /** Pointers lead from p to x. */
  ghost predicate LeadsTo(s: Store, p: nat, x: nat) {
    exists path :: IsPath(s, path) && path[0] == p && path[|path| - 1] == x
  }

  /** hs is a chain, t is allocated and does not lead back to the end of hs. */
  ghost predicate MayAppend(s: Store, hs: seq<nat>, t: nat) {
    && t in s && hs != [] && IsChain(s, Some(hs[0]), hs) && (forall q :: q in hs ==> q in s)
    && !LeadsTo(s, t, hs[|hs| - 1])
  }

  /** What each call may do, callers keeping to the rules stated in pbuf.c. */
  ghost predicate Step(a: State, op: Op, b: State) {
    match op
    case Alloc(ps) => ps != [] && IsFresh(a.s, b.s, ps) && b.held == a.held + multiset{ps[0]}
    case Ref(p) => p in a.s && b == State(RefStore(a.s, p), a.held + multiset{p})
    case Free(p) => p in a.held && p in a.s && b == State(FreeStore(a.s, p), a.held - multiset{p})
    case Cat(hs, t) =>
      && t in a.held && MayAppend(a.s, hs, t)
      && b == State(CatStore(a.s, hs, t, a.s[t].totLen), a.held - multiset{t})
    case ChainOn(hs, t) =>
      && MayAppend(a.s, hs, t)
      && var c := CatStore(a.s, hs, t, a.s[t].totLen);
         t in c && b == State(RefStore(c, t), a.held)
    case Cut(p) =>
      && p in a.s && a.s[p].next.Some? && a.s[p].next.value in a.s
      && b == State(FreeStore(Unlink(a.s, p), a.s[p].next.value), a.held)
    case Relength =>
      && b.held == a.held && b.s.Keys == a.s.Keys
      && forall q :: q in a.s ==> b.s[q].next == a.s[q].next && b.s[q].ref == a.s[q].ref
  }

  lemma NoWayBack(s: Store, rank: Rank, hs: seq<nat>, t: nat)
    requires Ranked(s, rank) && MayAppend(s, hs, t)
    ensures hs[|hs| - 1] !in Chain(s, rank, t)
  {
    if hs[|hs| - 1] in Chain(s, rank, t) {
      var path := PathTo(s, rank, t, hs[|hs| - 1]);
    }
  }

  lemma CatThenRef(s: Store, hs: seq<nat>, t: nat, add: int)
    requires t in s && hs != [] && (forall q :: q in hs ==> q in s) && !Repeats(hs)
    ensures t in CatStore(s, hs, t, add)
    ensures CatStore(RefStore(s, t), hs, t, add) == RefStore(CatStore(s, hs, t, add), t)
  {
    var x, y := CatStore(RefStore(s, t), hs, t, add), CatStore(s, hs, t, add);
    CatAt(s, hs, t, add, t);
    CatAt(RefStore(s, t), hs, t, add, t);
    forall q | q in s ensures q in x && q in y && x[q] == RefStore(y, t)[q] {
      CatAt(s, hs, t, add, q);
      CatAt(RefStore(s, t), hs, t, add, q);
    }
    assert x == RefStore(y, t);
  }

  /** pbuf_chain is as if the caller took a reference to t and pbuf_cat consumed it. */
  lemma ChainOnKeeps(s: Store, held: multiset<nat>, rank: Rank, hs: seq<nat>, t: nat, add: int)
    requires RefInv(s, held, rank) && MayAppend(s, hs, t)
    ensures t in CatStore(s, hs, t, add) && Consistent(RefStore(CatStore(s, hs, t, add), t), held)
  {
    var s1 := RefStore(s, t);
    NoWayBack(s, rank, hs, t);
    ChainDistinct(s, Some(hs[0]), hs);
    CatThenRef(s, hs, t, add);
    RefKeeps(s, held, rank, t);
    ChainFrame(s, s1, Some(hs[0]), hs);
    SameChains(s, s1, rank, t);
    CatKeeps(s1, held + multiset{t}, rank, hs, t, add);
    assert held + multiset{t} - multiset{t} == held;
  }

  lemma CutKeeps(s: Store, held: multiset<nat>, rank: Rank, p: nat)
    requires RefInv(s, held, rank) && p in s && s[p].next.Some?
    ensures s[p].next.value in s && RefInv(FreeStore(Unlink(s, p), s[p].next.value), held, rank)
  {
    assert LinkOk(s, rank, p);
    var n := s[p].next.value;
    UnlinkKeeps(s, held, rank, p);
    FreeKeeps(Unlink(s, p), held + multiset{n}, rank, n);
    assert held + multiset{n} - multiset{n} == held;
  }

  lemma {:induction false} SameChains(s: Store, s1: Store, rank: Rank, p: nat)
    requires Ranked(s, rank) && Ranked(s1, rank) && s1.Keys == s.Keys && p in s
    requires forall q :: q in s ==> s1[q].next == s[q].next
    ensures Chain(s1, rank, p) == Chain(s, rank, p)
    decreases rank[p]
  {
    assert LinkOk(s, rank, p) && LinkOk(s1, rank, p);
    if s[p].next.Some? { SameChains(s, s1, rank, s[p].next.value); }
  }

  lemma StepKeeps(a: State, op: Op, b: State)
    requires Consistent(a.s, a.held) && Step(a, op, b)
    ensures Consistent(b.s, b.held)
  {
    var rank :| RefInv(a.s, a.held, rank);
    match op
    case Alloc(ps) => FreshKeeps(a.s, a.held, rank, b.s, ps);
    case Ref(p) => RefKeeps(a.s, a.held, rank, p);
    case Free(p) => FreeKeeps(a.s, a.held, rank, p);
    case Cat(hs, t) =>
      NoWayBack(a.s, rank, hs, t);
      CatKeeps(a.s, a.held, rank, hs, t, a.s[t].totLen);
    case ChainOn(hs, t) => ChainOnKeeps(a.s, a.held, rank, hs, t, a.s[t].totLen);
    case Cut(p) => CutKeeps(a.s, a.held, rank, p);
    case Relength => LengthsIrrelevant(a.s, b.s, a.held, rank);
  }

  ghost predicate IsRun(run: seq<State>, ops: seq<Op>) {
    && |run| == |ops| + 1 && run[0] == State(map[], multiset{})
    && forall i :: 0 <= i < |ops| ==> Step(run[i], ops[i], run[i + 1])
  }

  lemma {:induction false} RunKeeps(run: seq<State>, ops: seq<Op>, i: nat)
    requires IsRun(run, ops) && i < |run|
    ensures Consistent(run[i].s, run[i].held)
  {
    if i == 0 {
      assert RefInv(map[], multiset{}, map[]);
    } else {
      RunKeeps(run, ops, i - 1);
      StepKeeps(run[i - 1], ops[i - 1], run[i]);
    }
  }

  /** In every run each reference count is the held references plus the incoming links. */
  lemma CountsExactInRuns(run: seq<State>, ops: seq<Op>, i: nat, p: nat)
    requires IsRun(run, ops) && i < |run| && p in run[i].s
    ensures run[i].s[p].ref == run[i].held[p] + |set q | q in run[i].s && run[i].s[q].next == Some(p)|
    ensures run[i].s[p].ref > 0
  {
    RunKeeps(run, ops, i);
    var rank :| RefInv(run[i].s, run[i].held, rank);
    assert CountOk(run[i].s, run[i].held, p);
    assert Incoming(run[i].s, p) == set q | q in run[i].s && run[i].s[q].next == Some(p);
  }

  /** In every run the pbufs that callers hold and those that allocated pbufs link to are allocated. */
  lemma NoDangling(run: seq<State>, ops: seq<Op>, i: nat)
    requires IsRun(run, ops) && i < |run|
    ensures forall p :: p in run[i].held ==> p in run[i].s
    ensures forall p :: p in run[i].s && run[i].s[p].next.Some? ==> run[i].s[p].next.value in run[i].s
  {
    RunKeeps(run, ops, i);
    var rank :| RefInv(run[i].s, run[i].held, rank);
    forall p | p in run[i].s && run[i].s[p].next.Some? ensures run[i].s[p].next.value in run[i].s {
      assert LinkOk(run[i].s, rank, p);
    }
  }

  /** A path from an allocated pbuf ends at an allocated one. */
  lemma {:induction false} PathStays(s: Store, rank: Rank, path: seq<nat>)
    requires Ranked(s, rank) && IsPath(s, path) && path[0] in s
    ensures path[|path| - 1] in s
    decreases |path|
  {
    if |path| > 1 {
      assert LinkOk(s, rank, path[0]);
      PathStays(s, rank, path[1..]);
    }
  }

  /** In every run a pbuf is allocated exactly when a held pointer leads to it:
      nothing reachable is released and nothing released stays allocated. */
  lemma AllocatedIsReachable(run: seq<State>, ops: seq<Op>, i: nat, x: nat)
    requires IsRun(run, ops) && i < |run|
    ensures x in run[i].s <==>
      exists q :: q in run[i].held && LeadsTo(run[i].s, q, x)
  {
    RunKeeps(run, ops, i);
    var s, held := run[i].s, run[i].held;
    var rank :| RefInv(s, held, rank);
    if x in s {
      NothingLeaks(s, held, rank, x, s.Keys);
      var q :| q in held && q in s && x in Chain(s, rank, q);
      var path := PathTo(s, rank, q, x);
    } else {
      forall q | q in held ensures !LeadsTo(s, q, x) {
        if path :| IsPath(s, path) && path[0] == q && path[|path| - 1] == x {
          PathStays(s, rank, path);
        }
      }
    }
  }

  lemma {:induction false} PathTo(s: Store, rank: Rank, q: nat, x: nat) returns (path: seq<nat>)
    requires Ranked(s, rank) && q in s && x in Chain(s, rank, q)
    ensures IsPath(s, path) && path[0] == q && path[|path| - 1] == x
    decreases rank[q]
  {
    assert LinkOk(s, rank, q);
    if x == q {
      path := [q];
    } else {
      var rest := PathTo(s, rank, s[q].next.value, x);
      path := [q] + rest;
    }
  }

  // -------------------------------------------------------------- total lengths

  ghost predicate TotOk(s: Store, rank: Rank) {
    Ranked(s, rank) && forall q :: q in s ==> TotOkAt(s, rank, q)
  }

  predicate TotOkAt(s: Store, rank: Rank, q: nat)
    requires q in s
  {
    LinkOk(s, rank, q) && TotAt(s, q)
  }

  /**
    pbuf_cat keeps every tot_len field correct if and only if nothing was appended or
    no pbuf outside the first chain links into it.
  */
  lemma CatTotals(s: Store, rank: Rank, hs: seq<nat>, t: nat, rank': Rank)
    requires TotOk(s, rank) && t in s && hs != [] && IsChain(s, Some(hs[0]), hs)
    requires hs[|hs| - 1] !in Chain(s, rank, t)
    ensures (forall q :: q in hs ==> q in s)
    ensures Ranked(CatStore(s, hs, t, s[t].totLen), rank') ==>
      (TotOk(CatStore(s, hs, t, s[t].totLen), rank') <==>
        s[t].totLen == 0 || forall q :: q in s && q !in hs && s[q].next.Some? ==> s[q].next.value !in hs)
  {
    ChainIn(s, Some(hs[0]), hs);
    ChainDistinct(s, Some(hs[0]), hs);
    ChainSuffix(s, Some(hs[0]), hs, |hs| - 1);
    var s' := CatStore(s, hs, t, s[t].totLen);
    CatAt(s, hs, t, s[t].totLen, t);
    assert t !in hs by {
      if t in hs { InTail(s, rank, hs, t); }
    }
    if Ranked(s', rank') {
      forall q | q in s
        ensures q in s'
        ensures TotOkAt(s', rank', q) <==>
          (s[t].totLen == 0 || !(q !in hs && s[q].next.Some? && s[q].next.value in hs))
      {
        CatAt(s, hs, t, s[t].totLen, q);
        assert TotOkAt(s, rank, q) && LinkOk(s', rank', q);
        CatTotalAt(s, rank, hs, t, rank', q);
      }
    }
  }

  lemma CatTotalAt(s: Store, rank: Rank, hs: seq<nat>, t: nat, rank': Rank, q: nat)
    requires t in s && t !in hs && hs != [] && IsChain(s, Some(hs[0]), hs) && !Repeats(hs)
    requires (forall x :: x in hs ==> x in s) && s[hs[|hs| - 1]].next == None
    requires q in s && TotOkAt(s, rank, q)
    requires q in CatStore(s, hs, t, s[t].totLen) && LinkOk(CatStore(s, hs, t, s[t].totLen), rank', q)
    ensures TotOkAt(CatStore(s, hs, t, s[t].totLen), rank', q) <==>
      (s[t].totLen == 0 || !(q !in hs && s[q].next.Some? && s[q].next.value in hs))
  {
    var add, last := s[t].totLen, hs[|hs| - 1];
    var s' := CatStore(s, hs, t, add);
    CatAt(s, hs, t, add, q);
    CatAt(s, hs, t, add, t);
    assert TotOkAt(s, rank, q) && LinkOk(s', rank', q);
    if q in hs { NextInChain(s, hs, q); }
    if s[q].next.Some? { CatAt(s, hs, t, add, s[q].next.value); }
    TotalsAround(s, s', q, q in hs, add);
  }

  /** The total of q is still right exactly when what follows grew as much as q did. */
  lemma TotalsAround(s: Store, s': Store, q: nat, grew: bool, add: int)
    requires q in s && q in s' && (s[q].next.Some? ==> s[q].next.value in s) && TotAt(s, q)
    requires s'[q].payload == s[q].payload && s'[q].totLen == s[q].totLen + if grew then add else 0
    requires s'[q].next.Some? ==> s'[q].next.value in s'
    ensures TotAt(s', q) <==> TotOf(s', s'[q].next) == TotOf(s, s[q].next) + if grew then add else 0
  {
  }

  lemma NextInChain(s: Store, hs: seq<nat>, q: nat)
    requires hs != [] && IsChain(s, Some(hs[0]), hs) && q in hs && q in s
    ensures if q == hs[|hs| - 1] then s[q].next == None else s[q].next.Some? && s[q].next.value in hs
  {
    ChainSuffix(s, Some(hs[0]), hs, Index(hs, q));
    ChainDistinct(s, Some(hs[0]), hs);
    assert Index(hs, q) < |hs| - 1 ==> hs[Index(hs, q)] != hs[|hs| - 1];
  }

  /** A member of a chain leads to the chain's end. */
  lemma {:induction false} InTail(s: Store, rank: Rank, hs: seq<nat>, t: nat)
    requires Ranked(s, rank) && hs != [] && IsChain(s, Some(hs[0]), hs) && t in hs
    ensures t in s && hs[|hs| - 1] in Chain(s, rank, t)
  {
    var k := Index(hs, t);
    ChainSuffix(s, Some(hs[0]), hs, k);
    ChainUnique(s, Some(t), Chain(s, rank, t), hs[k..]);
    assert hs[k..][|hs| - 1 - k] == hs[|hs| - 1];
  }
}
