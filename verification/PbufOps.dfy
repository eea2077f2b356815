/**
  The pbuf operations as loops over `next` pointers that update the segments in
  place, each proved to do what PbufRefs.dfy and PbufBytes.dfy specify.
*/
module PbufOps {
  import opened Common
  import opened PbufStore
  import opened PbufRefs
  import opened PbufBytes

  // ------------------------------------------------------- lemmas about the loops

  /** The pool elements that pbuf_free gives back. */
  function Returned(s: Store, p: nat): set<nat>
    requires p in s
    decreases |s.Keys|
  {
    if s[p].ref > 1 then {}
    else
      var s1 := s - {p};
      Smaller(s, p);
      (if s[p].pooled then {p} else {})
      + if s[p].next.Some? && s[p].next.value in s1 then Returned(s1, s[p].next.value) else {}
  }

  /** A whole chain of pool elements comes back. */
  lemma {:induction false} ReturnedFresh(s0: Store, s: Store, ps: seq<nat>)
    requires IsFresh(s0, s, ps) && forall q :: q in ps ==> s[q].pooled
    ensures ps[0] in s && Returned(s, ps[0]) == set q | q in ps
    decreases |ps|
  {
    var p := ps[0];
    ChainSuffix(s, Some(p), ps, 0);
    var s1 := s - {p};
    assert ps == [p] + ps[1..];
    if |ps| > 1 {
      ChainSuffix(s, Some(p), ps, 1);
      assert ps[1] in ps[1..];
      ChainFrame(s, s1, Some(ps[1]), ps[1..]);
      ShorterFresh(s0, s, ps);
      ReturnedFresh(s0, s1, ps[1..]);
      assert ps[1..][0] == ps[1];
    }
    forall q ensures q in ps <==> q == p || q in ps[1..] { }
  }

  lemma {:induction false} ChainAppend(s: Store, s': Store, p: Option<nat>, ps: seq<nat>, q: nat)
    requires IsChain(s, p, ps) && ps != [] && q !in ps && q in s' && s'[q].next == None
    requires forall x :: x in ps ==> x in s && x in s'
    requires forall x :: x in ps ==> s'[x].next == if x == ps[|ps| - 1] then Some(q) else s[x].next
    ensures IsChain(s', p, ps + [q])
    decreases |ps|
  {
    assert (ps + [q])[1..] == ps[1..] + [q];
    if |ps| == 1 {
      assert (ps + [q])[1..] == [q];
      assert [q][1..] == [];
      assert IsChain(s', None, []);
      assert IsChain(s', Some(q), [q]);
    } else {
      ChainSuffix(s, p, ps, 0);
      assert ps[1..][|ps[1..]| - 1] == ps[|ps| - 1];
      assert ps[|ps| - 1] in ps[1..];
      ChainAppend(s, s', s[ps[0]].next, ps[1..], q);
    }
  }

  /** Linking one more pool element to a new chain. */
  lemma FreshExtend(s0: Store, s: Store, ps: seq<nat>, b: Pbuf, q: nat)
    requires IsFresh(s0, s, ps) && q !in s && b.next == None && b.ref == 1
    ensures ps[|ps| - 1] in s
    ensures IsFresh(s0, s[ps[|ps| - 1] := s[ps[|ps| - 1]].(next := Some(q))][q := b], ps + [q])
  {
    var r := ps[|ps| - 1];
    ChainIn(s, Some(ps[0]), ps);
    var s' := s[r := s[r].(next := Some(q))][q := b];
    ChainAppend(s, s', Some(ps[0]), ps, q);
    assert (ps + [q])[0] == ps[0];
    forall x ensures x in s'.Keys <==> x in s0.Keys + (set y | y in ps + [q]) {
      assert x in ps + [q] <==> x in ps || x == q;
    }
  }

  /** pbuf_dechain before the tail is freed: p stands alone, q keeps the rest of the total. */
  function Parted(s: Store, p: nat, q: nat): Store
    requires p in s && q in s
  {
    var s1 := s[q := s[q].(totLen := s[p].totLen - |s[p].payload|)];
    s1[p := s1[p].(next := None, totLen := |s1[p].payload|)]
  }

  lemma PartKeeps(s: Store, held: multiset<nat>, rank: Rank, p: nat, q: nat)
    requires RefInv(s, held, rank) && p in s && s[p].next == Some(q)
    ensures q in s && q != p && q in Parted(s, p, q) && RefInv(Parted(s, p, q), held + multiset{q}, rank)
    ensures |Released(Parted(s, p, q), q)| > 0 <==> s[q].ref <= 1
  {
    assert LinkOk(s, rank, p);
    UnlinkKeeps(s, held, rank, p);
    LengthsIrrelevant(Unlink(s, p), Parted(s, p, q), held + multiset{q}, rank);
  }

  /** The tail of pbuf_dechain, if somebody else holds it too, loses one reference. */
  lemma DechainTail(s: Store, held: multiset<nat>, rank: Rank, p: nat, q: nat)
    requires RefInv(s, held, rank) && p in s && s[p].next == Some(q)
    requires TotAt(s, p)
    ensures q in s && q in Parted(s, p, q) && RefInv(FreeStore(Parted(s, p, q), q), held, rank)
    ensures s[q].ref > 1 ==>
      FreeStore(Parted(s, p, q), q)
        == s[p := s[p].(next := None, totLen := |s[p].payload|)][q := s[q].(ref := s[q].ref - 1)]
  {
    PartKeeps(s, held, rank, p, q);
    FreeKeeps(Parted(s, p, q), held + multiset{q}, rank, q);
    assert held + multiset{q} - multiset{q} == held;
  }

  /** pbuf_dechain leaves p alone with its own bytes; the rest of the chain, if anyone else
      holds it, keeps its bytes and totals. */
  lemma DechainMeaning(s: Store, held: multiset<nat>, rank: Rank, p: nat, q: nat, ps: seq<nat>)
    requires RefInv(s, held, rank) && p in s && s[p].next == Some(q) && IsChain(s, Some(q), ps) && p !in ps
    requires (forall x :: x in ps ==> x in s) && Totals(s, ps) && TotAt(s, p)
    ensures q in Parted(s, p, q)
    ensures var t := FreeStore(Parted(s, p, q), q);
      && RefInv(t, held, rank)
      && p in t && t[p].next == None && t[p].payload == s[p].payload && t[p].totLen == |s[p].payload|
      && (s[q].ref > 1 ==>
            && IsChain(t, Some(q), ps) && (forall x :: x in ps ==> x in t)
            && Bytes(t, ps) == Bytes(s, ps) && Totals(t, ps))
  {
    DechainTail(s, held, rank, p, q);
    var t := FreeStore(Parted(s, p, q), q);
    if s[q].ref > 1 {
      ChainFrame(s, t, Some(q), ps);
      BytesFrame(s, t, ps);
      TotalsFrame(s, t, ps);
    } else {
      DechainHead(s, rank, p, q);
    }
  }

  lemma DechainHead(s: Store, rank: Rank, p: nat, q: nat)
    requires Ranked(s, rank) && p in s && s[p].next == Some(q) && q in s && q in Parted(s, p, q) && TotAt(s, p)
    ensures p in FreeStore(Parted(s, p, q), q)
    ensures FreeStore(Parted(s, p, q), q)[p].(ref := 0) == s[p].(next := None, totLen := |s[p].payload|, ref := 0)
  {
    assert LinkOk(s, rank, p);
    var s2 := s[p := s[p].(totLen := |s[p].payload|)];
    assert s[q].(totLen := s[p].totLen - |s[p].payload|) == s[q];
    assert s[q := s[q]] == s;
    assert Parted(s, p, q) == Unlink(s2, p);
    assert Ranked(s2, rank) by {
      forall x | x in s2 ensures LinkOk(s2, rank, x) { assert LinkOk(s, rank, x); }
    }
    FreeThenUnlink(s2, rank, p, q);
    FreeFrame(s2, q);
  }

  /** How many further pool elements of `buf` bytes hold `rem` bytes. */
  function Segments(rem: int, buf: nat): nat
    requires buf > 0
    decreases if rem > 0 then rem else 0
  {
    if rem <= 0 then 0 else 1 + Segments(rem - buf, buf)
  }

  /** tot_len of segment k, `rem` bytes being still to come behind the last. */
  predicate TotalUpTo(s: Store, ps: seq<nat>, k: nat, rem: int)
    requires k < |ps|
  {
    ps[k] in s && (k + 1 < |ps| ==> ps[k + 1] in s) &&
    s[ps[k]].totLen == |s[ps[k]].payload| + if k + 1 < |ps| then s[ps[k + 1]].totLen else rem
  }

  /** The references that are held once the loop of pbuf_free is done with x. */
  lemma NextHeld(s: Store, held: multiset<nat>, rank: Rank, x: nat) returns (held': multiset<nat>)
    requires RefInv(s, held, rank) && x in held
    ensures x in s && s[x].ref > 0
    ensures s[x].next.Some? ==> s[x].next.value in s && (s[x].ref == 1 ==> s[x].next.value in s - {x})
    ensures s[x].ref == 1 ==> RefInv(s - {x}, held', rank) && |(s - {x}).Keys| < |s.Keys|
    ensures s[x].ref == 1 && s[x].next.Some? ==> s[x].next.value in held'
  {
    assert CountOk(s, held, x) && LinkOk(s, rank, x);
    if s[x].ref == 1 {
      PassKeeps(s, held, rank, x);
      Smaller(s, x);
    }
    held' := Passed(s, held, x);
  }

  /** The counts are right once the link of `cut`, if any, is counted as a held reference;
      x lies below that pbuf. */
  ghost predicate Sound(s: Store, cut: Option<nat>, held: multiset<nat>, rank: Rank, x: Option<nat>) {
    match cut
    case None => RefInv(s, held, rank)
    case Some(c) =>
      && c in s && RefInv(Unlink(s, c), held, rank)
      && (x.Some? ==> c in rank && x.value in rank && rank[x.value] < rank[c])
  }

  /** One turn of the loop of pbuf_free keeps the counts right. */
  lemma SoundStep(s: Store, cut: Option<nat>, held: multiset<nat>, rank: Rank, x: nat) returns (held': multiset<nat>)
    requires Sound(s, cut, held, rank, Some(x)) && x in held
    ensures x in s && s[x].ref > 0
    ensures s[x].next.Some? ==> s[x].next.value in s && (s[x].ref == 1 ==> s[x].next.value in s - {x})
    ensures s[x].ref == 1 ==> Sound(s - {x}, cut, held', rank, s[x].next) && |(s - {x}).Keys| < |s.Keys|
    ensures s[x].ref == 1 && s[x].next.Some? ==> s[x].next.value in held'
  {
    match cut
    case None =>
      held' := NextHeld(s, held, rank, x);
    case Some(c) =>
      var u := Unlink(s, c);
      assert LinkOk(u, rank, x);
      held' := NextHeld(u, held, rank, x);
      assert Unlink(s - {x}, c) == u - {x};
      Smaller(s, x);
  }

  /** What is left to do of pbuf_free(p) in s0 when its loop has come to q. */
  ghost predicate Owes(s0: Store, pool0: set<nat>, p: nat, s: Store, pool: set<nat>, count: nat, q: Option<nat>)
    requires p in s0
  {
    match q
    case None => s == FreeStore(s0, p) && count == |Released(s0, p)| && pool == pool0 + Returned(s0, p)
    case Some(x) =>
      && x in s && FreeStore(s, x) == FreeStore(s0, p)
      && count + |Released(s, x)| == |Released(s0, p)|
      && pool + Returned(s, x) == pool0 + Returned(s0, p)
  }

  lemma OwesStep(s0: Store, pool0: set<nat>, p: nat, s: Store, pool: set<nat>, count: nat, x: nat)
    requires p in s0 && x in s && Owes(s0, pool0, p, s, pool, count, Some(x))
    requires s[x].next.Some? && s[x].ref <= 1 ==> s[x].next.value in s - {x}
    ensures if s[x].ref > 1
      then Owes(s0, pool0, p, s[x := s[x].(ref := s[x].ref - 1)], pool, count, None)
      else Owes(s0, pool0, p, s - {x}, if s[x].pooled then pool + {x} else pool, count + 1, s[x].next)
  {
  }

  /** A chain under construction: ps is new, `rem` of `length` bytes are still to come. */
  ghost predicate Partial(s0: Store, pool0: set<nat>, s: Store, pool: set<nat>, ps: seq<nat>, length: nat, rem: int) {
    && IsFresh(s0, s, ps) && rem >= 0
    && (forall q :: q in ps ==> q in s && q in pool0 && s[q].pooled)
    && pool == pool0 - (set q | q in ps)
    && rem + |Bytes(s, ps)| == length
    && s[ps[0]].totLen == length
    && forall k :: 0 <= k < |ps| ==> TotalUpTo(s, ps, k, rem)
  }

  lemma PartialStart(s0: Store, pool0: set<nat>, p: nat, b: Pbuf, length: nat)
    requires p in pool0 && p !in s0 && b == Pbuf(None, 1, length, b.payload, true) && |b.payload| <= length
    ensures Partial(s0, pool0, s0[p := b], pool0 - {p}, [p], length, length - |b.payload|)
  {
    var s, ps := s0[p := b], [p];
    assert ps[1..] == [] && IsChain(s, Some(p), ps);
    assert Bytes(s, ps) == b.payload + [];
  }

  lemma PartialStep(s0: Store, pool0: set<nat>, s: Store, pool: set<nat>, ps: seq<nat>, length: nat, rem: int, q: nat, b: Pbuf)
    requires Partial(s0, pool0, s, pool, ps, length, rem) && q in pool && q !in s0
    requires b == Pbuf(None, 1, rem, b.payload, true) && |b.payload| <= rem
    ensures var r := ps[|ps| - 1];
      r in s && Partial(s0, pool0, s[r := s[r].(next := Some(q))][q := b], pool - {q}, ps + [q], length, rem - |b.payload|)
  {
    var r := ps[|ps| - 1];
    var s' := s[r := s[r].(next := Some(q))][q := b];
    FreshExtend(s0, s, ps, b, q);
    forall x | x in ps + [q] ensures x in s' && x in pool0 && s'[x].pooled {
      assert x in ps || x == q;
    }
    assert pool - {q} == pool0 - (set x | x in ps + [q]);
    PartialBytes(s, s', ps, r, q, b);
    var ps', rem' := ps + [q], rem - |b.payload|;
    forall k | 0 <= k < |ps'| ensures TotalUpTo(s', ps', k, rem') {
      if k < |ps| { assert TotalUpTo(s, ps, k, rem); }
    }
  }

  lemma PartialBytes(s: Store, s': Store, ps: seq<nat>, r: nat, q: nat, b: Pbuf)
    requires (forall x :: x in ps ==> x in s) && r in s && q !in ps
    requires s' == s[r := s[r].(next := Some(q))][q := b]
    ensures (forall x :: x in ps + [q] ==> x in s') && |Bytes(s', ps + [q])| == |Bytes(s, ps)| + |b.payload|
  {
    BytesAppend(s', ps, [q]);
    BytesFrame(s, s', ps);
    assert Bytes(s', [q]) == b.payload + [];
  }

  lemma AbandonPlan(s0: Store, pool0: set<nat>, s: Store, pool: set<nat>, ps: seq<nat>, length: nat, rem: int,
                    held: multiset<nat>, rank: Rank) returns (rank': Rank)
    requires RefInv(s0, held, rank) && Partial(s0, pool0, s, pool, ps, length, rem)
    ensures RefInv(s, held + multiset{ps[0]}, rank')
    ensures ps[0] in s && FreeStore(s, ps[0]) == s0 && pool + Returned(s, ps[0]) == pool0
  {
    FreshKeeps(s0, held, rank, s, ps);
    rank' :| RefInv(s, held + multiset{ps[0]}, rank');
    FreeFresh(s0, s, ps);
    ReturnedFresh(s0, s, ps);
    assert pool + (set q | q in ps) == pool0;
  }

  /** The first disagreement is where Agree stops. */
  lemma {:induction false} AgreeIs(text: seq<Byte>, i: nat, mem: seq<Byte>, n: nat, k: nat)
    requires k <= n <= |mem| && i + |mem| <= |text|
    requires (forall j :: k <= j < n ==> ByteAt(text, i + j) == mem[j]) && (n < |mem| ==> ByteAt(text, i + n) != mem[n])
    ensures Agree(text, i, mem, k) == n
    decreases n - k
  {
    if k < n {
      assert ByteAt(text, i + k) == mem[k];
      AgreeIs(text, i, mem, n, k + 1);
    }
  }

  /** What pbuf_memcmp reports about the text at an offset. */
  ghost predicate Compared(text: seq<Byte>, offset: nat, s2: seq<Byte>, d: nat) {
    if offset >= |text| then d == 0xffff
    else
      && d <= |s2|
      && (d == 0 ==> forall j :: 0 <= j < |s2| ==> ByteAt(text, offset + j) == s2[j])
      && (d > 0 ==>
            && ByteAt(text, offset + d - 1) != s2[d - 1]
            && forall j :: 0 <= j < d - 1 ==> ByteAt(text, offset + j) == s2[j])
  }

  /** What pbuf_memcmp computes when the pbuf with the byte at the offset begins behind `skip` bytes:
      positions in the rest of the chain are cut to 16 bits. */
  ghost predicate Computed(text: seq<Byte>, skip: nat, offset: nat, s2: seq<Byte>, d: nat) {
    if offset >= |text| then d == 0xffff
    else
      && skip <= offset && d <= |s2|
      && (d == 0 ==> forall j :: 0 <= j < |s2| ==> CutByte(text, skip, offset, j) == s2[j])
      && (d > 0 ==>
            && CutByte(text, skip, offset, d - 1) != s2[d - 1]
            && forall j :: 0 <= j < d - 1 ==> CutByte(text, skip, offset, j) == s2[j])
  }

  function CutByte(text: seq<Byte>, skip: nat, offset: nat, j: nat): Byte
    requires skip <= offset && skip <= |text|
  {
    ByteAt(text[skip..], (offset - skip + j) % 0x1_0000)
  }

  lemma CutByteIs(text: seq<Byte>, skip: nat, offset: nat, j: nat)
    requires skip <= offset && skip <= |text| && offset + j < 0x1_0000
    ensures CutByte(text, skip, offset, j) == ByteAt(text, offset + j)
  {
  }

  lemma ComputedIsCompared(text: seq<Byte>, skip: nat, offset: nat, s2: seq<Byte>, d: nat)
    requires Computed(text, skip, offset, s2, d) && (offset + |s2| <= 0x1_0000 || offset >= |text|)
    ensures Compared(text, offset, s2, d)
  {
    if offset < |text| {
      forall j | 0 <= j < |s2| ensures CutByte(text, skip, offset, j) == ByteAt(text, offset + j) {
        CutByteIs(text, skip, offset, j);
      }
    }
  }

  /** For a given offset and length, on every chain, whatever its segmentation, and for every pattern. */
  ghost predicate AlwaysCompares(offset: nat, n: nat) {
    forall text, skip, s2, d ::
      |text| <= 0xffff && |s2| == n && Computed(text, skip, offset, s2, d) ==> Compared(text, offset, s2, d)
  }

  /** One pbuf of ones, and a pattern that a byte 0 behind the end would match. */
  lemma WrappedComparison(offset: nat, n: nat) returns (text: seq<Byte>, s2: seq<Byte>, d: nat)
    requires offset < 0xffff && n <= 0xffff && offset + n > 0x1_0000
    ensures |text| <= 0xffff && |s2| == n && Computed(text, 0, offset, s2, d) && !Compared(text, offset, s2, d)
  {
    text := seq(offset + 1, _ => 1);
    s2 := seq(n, j => if j == 0 then 1 else 0);
    d := 0x1_0000 - offset + 1;
    assert text[0..] == text;
    forall j | 0 <= j < d - 1 ensures CutByte(text, 0, offset, j) == s2[j] { }
    assert CutByte(text, 0, offset, d - 1) == text[0];
    assert ByteAt(text, offset + d - 1) == s2[d - 1];
  }

  /** pbuf_memcmp compares with the concatenated bytes exactly if offset and length add up to no more
      than 2^16, or the offset lies behind every chain. */
  lemma MemcmpExactly(offset: nat, n: nat)
    requires offset <= 0xffff && n <= 0xffff
    ensures AlwaysCompares(offset, n) <==> offset + n <= 0x1_0000 || offset == 0xffff
  {
    if offset + n <= 0x1_0000 || offset == 0xffff {
      forall text, skip, s2, d | |text| <= 0xffff && |s2| == n && Computed(text, skip, offset, s2, d)
        ensures Compared(text, offset, s2, d)
      {
        ComputedIsCompared(text, skip, offset, s2, d);
      }
    } else {
      var text, s2, d := WrappedComparison(offset, n);
      assert Computed(text, 0, offset, s2, d);
    }
  }

  /** What pbuf_memfind returns.  An empty pattern is found at once, except that at the very
      end the 16-bit position wraps back by one. */
  function FoundAt(text: seq<Byte>, mem: seq<Byte>, start: nat): nat {
    if mem != [] then
      match SkipSearch(text, mem, start)
      case Some(i) => i
      case None => 0xffff
    else if start < |text| then start
    else if start == |text| && text != [] then start - 1
    else 0xffff
  }

  /** The search that has come to i still has the same outcome. */
  ghost predicate Searching(text: seq<Byte>, mem: seq<Byte>, start: nat, i: nat) {
    if mem != [] then i <= |text| && SkipSearch(text, mem, i) == SkipSearch(text, mem, start)
    else start <= |text| && (i == start || (text != [] && start == |text| && i == start - 1) || (text == [] && i > 0))
  }

  /** A position below the width of a word, or just at it. */
  lemma Wraps(i: nat, d: nat)
    requires i + d <= 0x1_0000
    ensures (i + d) % 0x1_0000 == if i + d == 0x1_0000 then 0 else i + d
  {
  }

  lemma SkipStep(text: seq<Byte>, mem: seq<Byte>, start: nat, i: nat, d: nat)
    requires mem != [] && i + |mem| <= |text| && Searching(text, mem, start, i) && Compared(text, i, mem, d)
    ensures d == 0 ==> FoundAt(text, mem, start) == i
    ensures d > 0 ==> Searching(text, mem, start, i + d)
  {
    AgreeIs(text, i, mem, if d == 0 then |mem| else d - 1, 0);
  }

  lemma EmptyStep(text: seq<Byte>, start: nat, i: nat, d: nat)
    requires |text| <= 0xffff && i <= |text| && Searching(text, [], start, i) && Compared(text, i, [], d)
    ensures d == 0 ==> FoundAt(text, [], start) == i
    ensures d > 0 ==> i == |text| && d == 0xffff && Searching(text, [], start, if i == 0 then 0xffff else i - 1)
  {
  }

  lemma SearchStep(text: seq<Byte>, mem: seq<Byte>, start: nat, i: nat, d: nat)
    requires |text| <= 0xffff && i + |mem| <= |text| && Searching(text, mem, start, i) && Compared(text, i, mem, d)
    ensures d == 0 ==> FoundAt(text, mem, start) == i
    ensures d > 0 ==> Searching(text, mem, start, (i + d) % 0x1_0000)
    ensures d > 0 && mem != [] ==> (i + d) % 0x1_0000 == i + d
    ensures d > 0 && mem == [] ==> i == |text| && (i + d) % 0x1_0000 != i && (i > 0 ==> (i + d) % 0x1_0000 == i - 1)
  {
    if mem != [] {
      SkipStep(text, mem, start, i, d);
      Wraps(i, d);
    } else {
      EmptyStep(text, start, i, d);
      if d > 0 {
        assert (i + d) % 0x1_0000 == if i == 0 then 0xffff else i - 1;
      }
    }
  }

  /** What pbuf_copy_partial has read, with `left` bytes to come of `more` behind `skip`, makes up the goal. */
  ghost predicate Reading(goal: seq<Byte>, out: seq<Byte>, more: seq<Byte>, skip: nat, left: nat) {
    out + Wanted(more, skip, left) == goal
  }

  lemma ReadStep(goal: seq<Byte>, out: seq<Byte>, here: seq<Byte>, more: seq<Byte>, skip: nat, left: nat)
    requires Reading(goal, out, here + more, skip, left)
    ensures skip != 0 && skip >= |here| ==> Reading(goal, out, more, skip - |here|, left)
    ensures !(skip != 0 && skip >= |here|) ==>
      var n := Min(|here| - skip, left);
      Reading(goal, out + here[skip..skip + n], more, 0, left - n)
  {
    WantedStep(out, here, more, skip, left);
  }

  lemma ReadEnd(goal: seq<Byte>, out: seq<Byte>, more: seq<Byte>, skip: nat, left: nat)
    requires Reading(goal, out, more, skip, left) && (left == 0 || more == [])
    ensures out == goal
  {
    assert out + [] == out;
  }

  // The two cursors of pbuf_copy.

  predicate NonEmpty(s: Store, ps: seq<nat>) {
    forall q :: q in ps ==> q in s && s[q].payload != []
  }

  /** The place behind the bytes `done` in the target chain ps. */
  ghost predicate ToAt(s: Store, ps: seq<nat>, done: seq<Byte>, i: nat, t: Option<nat>, o: nat) {
    && (forall q :: q in ps ==> q in s) && i <= |ps|
    && t == (if i < |ps| then Some(ps[i]) else None)
    && (if t.Some? then o < |s[t.value].payload| else o == 0)
    && |done| == |Bytes(s, ps[..i])| + o
  }

  /** The place in the source chain where the bytes of `all` behind `done` begin. */
  ghost predicate FromAt(s: Store, all: seq<Byte>, done: seq<Byte>, f: Option<nat>, rest: seq<nat>, o: nat) {
    && NonEmpty(s, rest) && IsChain(s, f, rest) && Totals(s, rest)
    && (if f.Some? then o < |s[f.value].payload| else o == 0)
    && o <= |Bytes(s, rest)| && all == done + Bytes(s, rest)[o..]
  }

  lemma ToStep(s: Store, p: nat, ps: seq<nat>, done: seq<Byte>, chunk: seq<Byte>, i: nat, t: nat, o: nat)
    requires IsChain(s, Some(p), ps) && NonEmpty(s, ps) && ToAt(s, ps, done, i, Some(t), o)
    requires o + |chunk| <= |s[t].payload|
    ensures if o + |chunk| == |s[t].payload| then ToAt(s, ps, done + chunk, i + 1, s[t].next, 0)
      else ToAt(s, ps, done + chunk, i, Some(t), o + |chunk|)
  {
    ChainSuffix(s, Some(p), ps, i);
    assert ps[..i + 1] == ps[..i] + [t];
    assert forall q :: q in ps[..i] + [t] ==> q in ps;
    BytesAppend(s, ps[..i], [t]);
    assert Bytes(s, [t]) == s[t].payload + [];
  }

  lemma FromStep(s: Store, all: seq<Byte>, done: seq<Byte>, f: nat, rest: seq<nat>, o: nat, n: nat)
    requires FromAt(s, all, done, Some(f), rest, o) && o + n <= |s[f].payload|
    ensures var done' := done + s[f].payload[o..o + n];
      if o + n == |s[f].payload| then FromAt(s, all, done', s[f].next, rest[1..], 0)
      else FromAt(s, all, done', Some(f), rest, o + n)
  {
    var here, more := s[f].payload, Bytes(s, rest[1..]);
    assert (here + more)[o..] == here[o..o + n] + (here + more)[o + n..];
    if o + n == |here| {
      assert (here + more)[o + n..] == more == more[0..];
      forall q | q in rest[1..] ensures q in s && s[q].payload != [] { }
      assert rest[1..] != [] ==> rest[1..][0] in rest;
    }
  }

  /** Writing to other pbufs does not move the source. */
  lemma FromFrame(s: Store, s': Store, all: seq<Byte>, done: seq<Byte>, f: Option<nat>, rest: seq<nat>, o: nat)
    requires FromAt(s, all, done, f, rest, o) && forall q :: q in rest ==> q in s && q in s' && s'[q] == s[q]
    ensures FromAt(s', all, done, f, rest, o)
  {
    ChainFrame(s, s', f, rest);
    BytesFrame(s, s', rest);
    TotalsFrame(s, s', rest);
  }

  /** While bytes are missing the target has room for them. */
  lemma RoomLeft(s: Store, ps: seq<nat>, s': Store, all: seq<Byte>, done: seq<Byte>, i: nat, t: Option<nat>, o: nat,
                 f: Option<nat>, rest: seq<nat>, o': nat)
    requires ToAt(s, ps, done, i, t, o) && FromAt(s', all, done, f, rest, o') && |all| <= |Bytes(s, ps)|
    ensures t.None? ==> f.None?
    ensures f.None? ==> done == all
  {
    if t.None? { assert ps[..i] == ps; }
    if f.Some? { assert |Bytes(s', rest)| >= |s'[rest[0]].payload| > o'; }
  }

  /** A pbuf whose tot_len is its len ends its packet. */
  lemma EndsPacket(s: Store, all: seq<Byte>, done: seq<Byte>, f: nat, rest: seq<nat>, o: nat)
    requires FromAt(s, all, done, Some(f), rest, o)
    ensures |s[f].payload| == s[f].totLen ==> s[f].next == None
  {
    assert IsChain(s, s[f].next, rest[1..]);
    if rest[1..] != [] {
      var g := rest[1..][0];
      assert g in rest;
      assert Bytes(s, rest[1..]) == s[g].payload + Bytes(s, rest[1..][1..]);
      assert s[f].totLen == |s[f].payload| + |Bytes(s, rest[1..])|;
    }
  }

  lemma ToEndsPacket(s: Store, p: Option<nat>, ps: seq<nat>, i: nat)
    requires IsChain(s, p, ps) && NonEmpty(s, ps) && Totals(s, ps) && i < |ps|
    ensures |s[ps[i]].payload| == s[ps[i]].totLen ==> s[ps[i]].next == None
    decreases i
  {
    if i > 0 {
      ToEndsPacket(s, s[ps[0]].next, ps[1..], i - 1);
    } else if ps[1..] != [] {
      assert ps[1..][0] in ps;
    }
  }

  /** The loop of pbuf_copy has moved `done` out of `all`. */
  ghost predicate Copying(s0: Store, ps: seq<nat>, s: Store, all: seq<Byte>, done: seq<Byte>, i: nat, t: Option<nat>, o: nat,
                          f: Option<nat>, rest: seq<nat>, o': nat) {
    && ToAt(s0, ps, done, i, t, o) && s == TakeStore(s0, ps, done) && !Repeats(ps)
    && FromAt(s, all, done, f, rest, o') && (forall q :: q in rest ==> q !in ps) && |all| <= |Bytes(s0, ps)|
  }

  lemma CopyStart(s: Store, ps: seq<nat>, t: Option<nat>, qs: seq<nat>, f: Option<nat>)
    requires IsChain(s, t, ps) && NonEmpty(s, ps) && t.Some?
    requires IsChain(s, f, qs) && NonEmpty(s, qs) && Totals(s, qs) && |Bytes(s, qs)| <= |Bytes(s, ps)|
    requires forall q :: q in qs ==> q !in ps
    ensures Copying(s, ps, s, Bytes(s, qs), [], 0, t, 0, f, qs, 0)
  {
    ChainDistinct(s, t, ps);
    assert ps[..0] == [] && Bytes(s, qs)[0..] == Bytes(s, qs);
  }

  /** While there is something to copy, there is room for it. */
  lemma CopyRoom(s0: Store, ps: seq<nat>, s: Store, all: seq<Byte>, done: seq<Byte>, i: nat, t: Option<nat>, o: nat,
                 f: Option<nat>, rest: seq<nat>, o': nat)
    requires Copying(s0, ps, s, all, done, i, t, o, f, rest, o') && f.Some?
    ensures f.value in s && f.value !in ps && o' < |s[f.value].payload|
    ensures t.Some? && t.value in s && t.value in s0 && |s[t.value].payload| == |s0[t.value].payload| && o < |s[t.value].payload|
  {
    RoomLeft(s0, ps, s, all, done, i, t, o, f, rest, o');
    TakeFrame(s0, ps, done, t.value);
  }

  /** What is known after each turn: neither chain is a queue of packets, so ERR_VAL is
      never returned, and at the end everything is copied. */
  lemma CopyEnd(s0: Store, p: nat, ps: seq<nat>, s: Store, all: seq<Byte>, done: seq<Byte>, i: nat, t: Option<nat>, o: nat,
                f: Option<nat>, rest: seq<nat>, o': nat)
    requires IsChain(s0, Some(p), ps) && NonEmpty(s0, ps) && Totals(s0, ps)
    requires Copying(s0, ps, s, all, done, i, t, o, f, rest, o')
    ensures f.None? ==> done == all
    ensures t.None? ==> f.None?
    ensures f.Some? ==> f.value in s && (|s[f.value].payload| == s[f.value].totLen ==> s[f.value].next == None)
    ensures t.Some? ==> t.value in s && (|s[t.value].payload| == s[t.value].totLen ==> s[t.value].next == None)
  {
    RoomLeft(s0, ps, s, all, done, i, t, o, f, rest, o');
    if f.Some? { EndsPacket(s, all, done, f.value, rest, o'); }
    if t.Some? {
      ToEndsPacket(s0, Some(p), ps, i);
      TakeFrame(s0, ps, done, t.value);
    }
  }

  /** Copying a chunk moves both cursors. */
  lemma CopyStep(s0: Store, p: nat, ps: seq<nat>, s: Store, s': Store, all: seq<Byte>, done: seq<Byte>, i: nat, t: nat, o: nat,
                 f: nat, rest: seq<nat>, o': nat, n: nat)
    requires IsChain(s0, Some(p), ps) && NonEmpty(s0, ps)
    requires Copying(s0, ps, s, all, done, i, Some(t), o, Some(f), rest, o')
    requires f in s && o' + n <= |s[f].payload| && t in s0 && o + n <= |s0[t].payload|
    requires s' == TakeStore(s0, ps, done + s[f].payload[o'..o' + n])
    requires forall q :: q in s && q != t ==> q in s' && s'[q] == s[q]
    ensures t in s' && f in s' && s'[f] == s[f] && s'[t].next == s0[t].next && |s'[t].payload| == |s0[t].payload|
    ensures var done' := done + s[f].payload[o'..o' + n];
      Copying(s0, ps, s', all, done',
              if o + n == |s0[t].payload| then i + 1 else i,
              if o + n == |s0[t].payload| then s0[t].next else Some(t),
              if o + n == |s0[t].payload| then 0 else o + n,
              if o' + n == |s[f].payload| then s[f].next else Some(f),
              if o' + n == |s[f].payload| then rest[1..] else rest,
              if o' + n == |s[f].payload| then 0 else o' + n)
  {
    var chunk := s[f].payload[o'..o' + n];
    ToStep(s0, p, ps, done, chunk, i, t, o);
    FromFrame(s, s', all, done, Some(f), rest, o');
    FromStep(s', all, done, f, rest, o', n);
    TakeFrame(s0, ps, done + chunk, t);
  }

  // ------------------------------------------------------------------ the pbufs

  class Pbufs {
    var store: Store
    var pool: set<nat>      // the free elements of MEMP_PBUF_POOL

    /** pbuf_free; `cut` is a pbuf whose link to p is about to be cleared, if any */
    method Free(p: Option<nat>, ghost cut: Option<nat>, ghost held: multiset<nat>, ghost rank: Rank) returns (count: nat)
      requires Sound(store, cut, held, rank, p) && (p.Some? ==> p.value in held)
      modifies this
      ensures p.None? ==> count == 0 && store == old(store) && pool == old(pool)
      ensures p.Some? ==>
        && p.value in old(store)
        && store == FreeStore(old(store), p.value) && count == |Released(old(store), p.value)|
        && pool == old(pool) + Returned(old(store), p.value)
    {
      if p.None? {
        return 0;
      }
      count := 0;
      var q := p;
      ghost var h := held;
      ghost var h1 := SoundStep(store, cut, held, rank, p.value);
      while q.Some?
        invariant p.value in old(store) && Owes(old(store), old(pool), p.value, store, pool, count, q)
        invariant q.Some? ==> Sound(store, cut, h, rank, q) && q.value in h
        decreases |store.Keys|, q.Some?
      {
        ghost var s := store;
        h := SoundStep(s, cut, h, rank, q.value);
        OwesStep(old(store), old(pool), p.value, s, pool, count, q.value);
        var gone;
        gone, q := FreeOne(q.value);
        if gone {
          count := count + 1;
        }
      }
    }

    /** One turn of the loop of pbuf_free: drop a reference to x, release x at zero. */
    method FreeOne(x: nat) returns (gone: bool, q: Option<nat>)
      requires x in store && store[x].ref > 0
      modifies this
      ensures gone <==> old(store)[x].ref == 1
      ensures gone ==>
        && store == old(store) - {x} && q == old(store)[x].next
        && pool == if old(store)[x].pooled then old(pool) + {x} else old(pool)
      ensures !gone ==>
        && q == None && pool == old(pool)
        && store == old(store)[x := old(store)[x].(ref := old(store)[x].ref - 1)]
    {
      var ref := store[x].ref - 1;
      store := store[x := store[x].(ref := ref)];
      if ref == 0 {
        gone, q := true, store[x].next;
        if store[x].pooled {
          pool := pool + {x};
        }
        store := store - {x};
      } else {
        gone, q := false, None;
      }
    }

    /** memp_malloc(MEMP_PBUF_POOL) */
    method TakeElement() returns (q: Option<nat>)
      modifies this`pool
      ensures q.None? ==> old(pool) == {} && pool == {}
      ensures q.Some? ==> q.value in old(pool) && pool == old(pool) - {q.value}
    {
      if pool == {} {
        q := None;
      } else {
        var e :| e in pool;
        pool := pool - {e};
        q := Some(e);
      }
    }

    /** Give a chain under construction back: everything is as before. */
    method Abandon(p: nat, ghost s0: Store, ghost pool0: set<nat>, ghost ps: seq<nat>, ghost length: nat, ghost rem: int,
                   ghost held: multiset<nat>, ghost rank: Rank)
      requires RefInv(s0, held, rank) && Partial(s0, pool0, store, pool, ps, length, rem) && p == ps[0]
      modifies this
      ensures store == s0 && pool == pool0
    {
      ghost var rank' := AbandonPlan(s0, pool0, store, pool, ps, length, rem, held, rank);
      var n := Free(Some(p), None, held + multiset{p}, rank');
    }

    /** pbuf_alloc(.., length, PBUF_POOL), with `first` bytes for data in the first element. */
    method AllocPool(length: nat, first: nat, buf: nat, ghost held: multiset<nat>, ghost rank: Rank)
      returns (r: Option<nat>, ghost ps: seq<nat>)
      requires RefInv(store, held, rank) && pool !! store.Keys && 0 < first <= buf
      modifies this
      ensures r.None? ==>
        store == old(store) && pool == old(pool) && |pool| < 1 + Segments(length - first, buf)
      ensures r.Some? ==>
        && Partial(old(store), old(pool), store, pool, ps, length, 0) && r.value == ps[0]
        && |ps| == 1 + Segments(length - first, buf)
    {
      ps := [];
      ghost var s0, pool0 := store, pool;
      r := TakeElement();
      if r.None? {
        return;
      }
      var len := StartChain(r.value, length, first, pool0);
      var ok;
      ok, ps := Fill(r.value, length - len, buf, s0, pool0, [r.value], length, held, rank);
      if !ok {
        r := None;
      }
    }

    /** The first element of a new chain. */
    method StartChain(p: nat, length: nat, first: nat, ghost pool0: set<nat>) returns (len: nat)
      requires p in pool0 && p !in store && pool == pool0 - {p}
      modifies this`store
      ensures len == Min(length, first) && p in store
      ensures Partial(old(store), pool0, store, pool, [p], length, length - len)
    {
      len := Min(length, first);
      var b := Pbuf(None, 1, length, seq(len, _ => 0), true);
      PartialStart(store, pool0, p, b, length);
      store := store[p := b];
    }

    /** The loop of pbuf_alloc: append elements to the chain that starts at p for the `rest` bytes that
        are still to come, or give everything back. */
    method Fill(p: nat, rest: nat, buf: nat, ghost s0: Store, ghost pool0: set<nat>, ghost ps0: seq<nat>, ghost length: nat,
                ghost held: multiset<nat>, ghost rank: Rank)
      returns (ok: bool, ghost ps: seq<nat>)
      requires RefInv(s0, held, rank) && pool0 !! s0.Keys && buf > 0
      requires ps0 == [p] && p in store && Partial(s0, pool0, store, pool, ps0, length, rest)
      modifies this
      ensures !ok ==> store == s0 && pool == pool0 && |pool| < 1 + Segments(rest, buf)
      ensures ok ==>
        Partial(s0, pool0, store, pool, ps, length, 0) && ps != [] && p == ps[0] && |ps| == 1 + Segments(rest, buf)
    {
      var last, rem := p, rest;
      ps := ps0;
      while rem > 0
        invariant Partial(s0, pool0, store, pool, ps, length, rem)
        invariant ps != [] && ps[0] == p && last == ps[|ps| - 1] && last in store
        invariant |ps| + Segments(rem, buf) == 1 + Segments(rest, buf)
        decreases rem
      {
        var q, len := TakeAndAppend(last, rem, buf, s0, pool0, ps, length);
        if q.None? {
          PoolUsedUp(pool0, ps);
          Abandon(p, s0, pool0, ps, length, rem, held, rank);
          ok := false;
          return;
        }
        ps := ps + [q.value];
        rem := rem - len;
        last := q.value;
      }
      ok := true;
    }

    /** One turn of the loop of pbuf_alloc. */
    method TakeAndAppend(last: nat, rem: nat, buf: nat,
                         ghost s0: Store, ghost pool0: set<nat>, ghost ps: seq<nat>, ghost length: nat)
      returns (q: Option<nat>, len: nat)
      requires Partial(s0, pool0, store, pool, ps, length, rem) && pool0 !! s0.Keys
      requires ps != [] && last == ps[|ps| - 1] && last in store
      modifies this
      ensures q.None? ==> store == old(store) && pool == old(pool) == {}
      ensures q.Some? ==>
        Partial(s0, pool0, store, pool, ps + [q.value], length, rem - len) && q.value in store && len == Min(rem, buf)
    {
      ghost var before := pool;
      len := 0;
      q := TakeElement();
      if q.Some? {
        assert before == pool + {q.value};
        len := AppendElement(last, q.value, rem, buf, s0, pool0, ps, length);
      }
    }


    /** Fill in a new element for the next bytes and link the chain to it. */
    method AppendElement(last: nat, q: nat, rem: nat, buf: nat,
                         ghost s0: Store, ghost pool0: set<nat>, ghost ps: seq<nat>, ghost length: nat) returns (len: nat)
      requires Partial(s0, pool0, store, pool + {q}, ps, length, rem) && q !in pool && q !in s0
      requires ps != [] && last == ps[|ps| - 1] && last in store
      modifies this`store
      ensures Partial(s0, pool0, store, pool, ps + [q], length, rem - len) && q in store && len == Min(rem, buf)
    {
      len := Min(rem, buf);
      var b := Pbuf(None, 1, rem, seq(len, _ => 0), true);
      PartialStep(s0, pool0, store, pool + {q}, ps, length, rem, q, b);
      assert pool + {q} - {q} == pool;
      store := store[last := store[last].(next := Some(q))];
      store := store[q := b];
    }

    /** pbuf_ref */
    method RefPbuf(p: Option<nat>)
      requires p.Some? ==> p.value in store
      modifies this`store
      ensures store == if p.None? then old(store) else RefStore(old(store), p.value)
    {
      if p.Some? {
        store := store[p.value := store[p.value].(ref := store[p.value].ref + 1)];
      }
    }

    /** pbuf_cat; hs lists the chain h, and ts may list that of t */
    method Cat(h: Option<nat>, t: Option<nat>, ghost hs: seq<nat>, ghost ts: seq<nat>)
      requires h.Some? && t.Some? ==> IsChain(store, h, hs) && t.value in store && t.value !in hs
      modifies this`store
      ensures h.None? || t.None? ==> store == old(store)
      ensures h.Some? && t.Some? ==>
        && hs != [] && (forall q :: q in hs ==> q in old(store))
        && store == CatStore(old(store), hs, t.value, old(store)[t.value].totLen)
      ensures h.Some? && t.Some? && IsChain(old(store), t, ts) && (forall q :: q in hs ==> q !in ts) ==>
        Joined(old(store), store, hs, ts)
    {
      if h.None? || t.None? {
        return;
      }
      var p := h.value;
      ghost var rest, add := hs, store[t.value].totLen;
      ChainIn(store, h, hs);
      while store[p].next.Some?
        invariant t.value in store && t.value !in rest && store[t.value].totLen == add
        invariant rest != [] && p == rest[0] && IsChain(store, Some(p), rest)
        invariant forall q :: q in rest ==> q in store
        invariant CatStore(store, rest, t.value, add) == CatStore(old(store), hs, t.value, add)
        decreases |rest|
      {
        ghost var s := store;
        store := store[p := store[p].(totLen := store[p].totLen + store[t.value].totLen)];
        ChainFrame(s, store, s[p].next, rest[1..]);
        p := store[p].next.value;
        rest := rest[1..];
      }
      assert rest[1..] == [];
      store := store[p := store[p].(totLen := store[p].totLen + store[t.value].totLen)];
      store := store[p := store[p].(next := t)];
      if IsChain(old(store), t, ts) && forall q :: q in hs ==> q !in ts {
        CatMeaning(old(store), hs, t.value, ts);
      }
    }

    /** pbuf_chain; hs lists the chain h, and ts may list that of t */
    method ChainOn(h: Option<nat>, t: Option<nat>, ghost hs: seq<nat>, ghost ts: seq<nat>)
      requires h.Some? && t.Some? ==> IsChain(store, h, hs)
      requires t.Some? ==> t.value in store && t.value !in hs
      modifies this`store
      ensures t.None? ==> store == old(store)
      ensures h.None? && t.Some? ==> store == RefStore(old(store), t.value)
      ensures h.Some? && t.Some? ==>
        && hs != [] && (forall q :: q in hs ==> q in old(store))
        && t.value in CatStore(old(store), hs, t.value, old(store)[t.value].totLen)
        && store == RefStore(CatStore(old(store), hs, t.value, old(store)[t.value].totLen), t.value)
      ensures h.Some? && t.Some? && IsChain(old(store), t, ts) && (forall q :: q in hs ==> q !in ts) ==>
        Joined(old(store), store, hs, ts)
    {
      ghost var s := store;
      Cat(h, t, hs, ts);
      if h.Some? && t.Some? {
        ChainDistinct(s, h, hs);
        CatAt(s, hs, t.value, s[t.value].totLen, t.value);
      }
      RefPbuf(t);
      if h.Some? && t.Some? && IsChain(s, t, ts) && forall q :: q in hs ==> q !in ts {
        ChainOnMeaning(s, hs, t.value, ts);
      }
    }

    /** The first part of pbuf_dechain: set the totals and cut the link. */
    method Part(p: nat, q: nat)
      requires p in store && q in store && p != q
      modifies this`store
      ensures store == Parted(old(store), p, q)
    {
      store := store[q := store[q].(totLen := store[p].totLen - |store[p].payload|)];
      store := store[p := store[p].(next := None)];
      store := store[p := store[p].(totLen := |store[p].payload|)];
    }

    /** pbuf_dechain */
    method Dechain(p: nat, ghost held: multiset<nat>, ghost rank: Rank) returns (tail: Option<nat>)
      requires RefInv(store, held, rank) && p in store
      modifies this
      ensures old(store)[p].next.None? ==> store == old(store) && pool == old(pool) && tail == None
      ensures old(store)[p].next.Some? ==>
        var q := old(store)[p].next.value;
        && q in old(store) && q in Parted(old(store), p, q)
        && store == FreeStore(Parted(old(store), p, q), q)
        && tail == if old(store)[q].ref > 1 then Some(q) else None
    {
      var gone := 1;
      tail := store[p].next;
      if tail.Some? {
        var q := tail.value;
        PartKeeps(store, held, rank, p, q);
        Part(p, q);
        gone := Free(Some(q), None, held + multiset{q}, rank);
      }
      if gone > 0 {
        tail := None;
      }
    }

    /** The first part of pbuf_realloc: adjust lengths up to the pbuf that becomes the last. */
    method Shorten(p: nat, newLen: nat, grow: int, ghost ps: seq<nat>) returns (q: nat)
      requires IsChain(store, Some(p), ps) && (forall x :: x in ps ==> x in store) && ps != []
      requires newLen <= |Bytes(store, ps)|
      modifies this`store
      ensures store == ShrinkStore(old(store), ps, newLen, grow) && q == ps[LastKept(old(store), ps, newLen)]
    {
      var rem := newLen;
      q := p;
      ghost var rest := ps;
      while rem > |store[q].payload|
        invariant forall x :: x in rest ==> x in store
        invariant rest != [] && q == rest[0] && IsChain(store, Some(q), rest) && 0 <= rem <= |Bytes(store, rest)|
        invariant ShrinkStore(store, rest, rem, grow) == ShrinkStore(old(store), ps, newLen, grow)
        invariant rest[LastKept(store, rest, rem)] == ps[LastKept(old(store), ps, newLen)]
        decreases |rest|
      {
        ghost var s := store;
        rem := rem - |store[q].payload|;
        store := store[q := store[q].(totLen := store[q].totLen + grow)];
        ChainFrame(s, store, s[q].next, rest[1..]);
        BytesFrame(s, store, rest[1..]);
        assert rest[1..] != [];
        LastKeptFrame(s, store, rest[1..], rem);
        q := store[q].next.value;
        rest := rest[1..];
      }
      store := store[q := store[q].(payload := store[q].payload[..rem])];
      store := store[q := store[q].(totLen := |store[q].payload|)];
    }

    /** pbuf_realloc; ps lists the chain of p */
    method Realloc(p: nat, newLen: nat, ghost ps: seq<nat>, ghost held: multiset<nat>, ghost rank: Rank)
      requires RefInv(store, held, rank) && p in store && IsChain(store, Some(p), ps)
      requires (forall q :: q in ps ==> q in store) && Totals(store, ps)
      modifies this
      ensures ps != []
      ensures store == if newLen >= |Bytes(old(store), ps)| then old(store) else ReallocStore(old(store), ps, newLen)
    {
      ghost var s0 := store;
      if newLen >= store[p].totLen {
        return;
      }
      var grow := newLen - store[p].totLen;
      ChainDistinct(store, Some(p), ps);
      ShrinkKeeps(store, held, rank, p, ps, newLen, grow);
      var q := Shorten(p, newLen, grow, ps);
      ghost var s1, k := store, LastKept(s0, ps, newLen);
      ChainSuffix(s1, Some(p), ps, k);
      var next := store[q].next;
      if next.Some? {
        CutAfter(s1, held, rank, p, ps, k);
        assert LinkOk(s1, rank, q);
        UnlinkKeeps(s1, held, rank, q);
        var n := Free(next, Some(q), held + multiset{next.value}, rank);
        FreeThenUnlink(s1, rank, q, next.value);
      }
      store := store[q := store[q].(next := None)];
    }

    /** pbuf_take; ps lists the chain of p.  False stands for ERR_ARG.  A missing chain or missing data
        is answered with 0, which is ERR_OK. */
    method Take(p: Option<nat>, dataptr: Option<seq<Byte>>, ghost ps: seq<nat>) returns (ok: bool)
      requires IsChain(store, p, ps) && (forall x :: x in ps ==> x in store) && Totals(store, ps)
      modifies this`store
      ensures ok <==> p.None? || dataptr.None? || |dataptr.value| <= |Bytes(old(store), ps)|
      ensures store ==
        if ok && p.Some? && dataptr.Some? then TakeStore(old(store), ps, dataptr.value) else old(store)
    {
      if p.None? || dataptr.None? {
        return true;
      }
      var data := dataptr.value;
      if store[p.value].totLen < |data| {
        return false;
      }
      ChainDistinct(store, p, ps);
      var q, copied := p, 0;
      ghost var rest := ps;
      while copied < |data|
        invariant forall x :: x in rest ==> x in store
        invariant IsChain(store, q, rest)
        invariant 0 <= copied <= |data| <= copied + |Bytes(store, rest)|
        invariant TakeStore(store, rest, data[copied..]) == TakeStore(old(store), ps, data)
        decreases |rest|
      {
        ghost var s := store;
        var n := Min(|data| - copied, |store[q.value].payload|);
        assert data[copied..][..n] == data[copied..copied + n] && data[copied..][n..] == data[copied + n..];
        store := store[q.value := store[q.value].(payload := data[copied..copied + n] + store[q.value].payload[n..])];
        ChainFrame(s, store, s[q.value].next, rest[1..]);
        BytesFrame(s, store, rest[1..]);
        copied := copied + n;
        q := store[q.value].next;
        rest := rest[1..];
      }
      assert data[copied..] == [];
      ok := true;
    }

    /** pbuf_copy_partial; ps lists the chain of buf */
    method CopyPartial(buf: Option<nat>, len: nat, offset: nat, ghost ps: seq<nat>) returns (out: seq<Byte>)
      requires IsChain(store, buf, ps) && forall x :: x in ps ==> x in store
      ensures out == Wanted(Bytes(store, ps), offset, len)
    {
      out := [];
      var p, left, skip := buf, len, offset;
      ghost var rest, goal := ps, Wanted(Bytes(store, ps), offset, len);
      assert [] + goal == goal;
      while left != 0 && p.Some?
        invariant (forall x :: x in rest ==> x in store) && IsChain(store, p, rest)
        invariant left >= 0 && skip >= 0
        invariant Reading(goal, out, Bytes(store, rest), skip, left)
        decreases |rest|
      {
        out, left, skip := PartialTurn(store[p.value].payload, out, left, skip, Bytes(store, rest[1..]), goal);
        p := store[p.value].next;
        rest := rest[1..];
      }
      ReadEnd(goal, out, Bytes(store, rest), skip, left);
    }

    /** One turn of pbuf_copy_partial: skip the payload `here`, or copy what is wanted of it. */
    static method PartialTurn(here: seq<Byte>, out: seq<Byte>, left: nat, skip: nat, ghost more: seq<Byte>, ghost goal: seq<Byte>)
      returns (out': seq<Byte>, left': nat, skip': nat)
      requires Reading(goal, out, here + more, skip, left)
      ensures Reading(goal, out', more, skip', left')
    {
      ReadStep(goal, out, here, more, skip, left);
      out', left', skip' := out, left, skip;
      if skip != 0 && skip >= |here| {
        skip' := skip - |here|;
      } else {
        var n := Min(|here| - skip, left);
        out' := out + here[skip..skip + n];
        left' := left - n;
        skip' := 0;
      }
    }

    /**
      pbuf_copy; ps and qs list the two chains.  False stands for ERR_ARG.  The third
      outcome of the source, ERR_VAL for a queue of packets, cannot be reached here.
    */
    method Copy(to: Option<nat>, from: Option<nat>, ghost ps: seq<nat>, ghost qs: seq<nat>) returns (ok: bool)
      requires IsChain(store, to, ps) && NonEmpty(store, ps) && Totals(store, ps)
      requires IsChain(store, from, qs) && NonEmpty(store, qs) && Totals(store, qs)
      requires forall q :: q in qs ==> q !in ps
      modifies this`store
      ensures ok <==> to.Some? && from.Some? && |Bytes(old(store), ps)| >= |Bytes(old(store), qs)|
      ensures store == if ok then TakeStore(old(store), ps, Bytes(old(store), qs)) else old(store)
    {
      if to.None? || from.None? || store[to.value].totLen < store[from.value].totLen {
        return false;
      }
      ghost var s0, all := store, Bytes(store, qs);
      ghost var done, i, rest := [], 0, qs;
      ChainDistinct(s0, to, ps);
      var t, f, offTo, offFrom := to, from, 0, 0;
      CopyStart(s0, ps, t, qs, f);
      while f.Some?
        invariant offTo >= 0 && offFrom >= 0
        invariant Copying(s0, ps, store, all, done, i, t, offTo, f, rest, offFrom)
        invariant f.None? ==> done == all
        decreases |all| - |done|
      {
        t, offTo, f, offFrom, done, i, rest := CopyTurn(t, offTo, f.value, offFrom, s0, to.value, ps, all, done, i, rest);
      }
      ok := true;
    }

    /** One turn of the loop of pbuf_copy; neither cursor ends up on a queue of packets. */
    method CopyTurn(t: Option<nat>, offTo: nat, f: nat, offFrom: nat, ghost s0: Store, ghost p: nat, ghost ps: seq<nat>,
                    ghost all: seq<Byte>, ghost done: seq<Byte>, ghost i: nat, ghost rest: seq<nat>)
      returns (t': Option<nat>, offTo': nat, f': Option<nat>, offFrom': nat,
               ghost done': seq<Byte>, ghost i': nat, ghost rest': seq<nat>)
      requires IsChain(s0, Some(p), ps) && NonEmpty(s0, ps) && Totals(s0, ps)
      requires Copying(s0, ps, store, all, done, i, t, offTo, Some(f), rest, offFrom)
      modifies this`store
      ensures Copying(s0, ps, store, all, done', i', t', offTo', f', rest', offFrom') && |all| - |done'| < |all| - |done|
      ensures f'.None? ==> done' == all
      ensures t'.None? ==> f'.None?
      ensures f'.Some? ==>
        && f'.value in store
        && (|store[f'.value].payload| == store[f'.value].totLen ==> store[f'.value].next == None)
      ensures t'.Some? ==>
        && t'.value in store
        && (|store[t'.value].payload| == store[t'.value].totLen ==> store[t'.value].next == None)
    {
      CopyRoom(s0, ps, store, all, done, i, t, offTo, Some(f), rest, offFrom);
      var n := Min(|store[f].payload| - offFrom, |store[t.value].payload| - offTo);
      ghost var s, chunk := store, store[f].payload[offFrom..offFrom + n];
      CopyChunk(t.value, f, offTo, offFrom, n, s0, ps, done, i);
      CopyStep(s0, p, ps, s, store, all, done, i, t.value, offTo, f, rest, offFrom, n);
      done', i', rest' := done + chunk, i, rest;
      t', f', offTo', offFrom' := t, Some(f), offTo + n, offFrom + n;
      if offFrom' >= |store[f].payload| {
        offFrom' := 0;
        f' := store[f].next;
        rest' := rest[1..];
      }
      if offTo' == |store[t.value].payload| {
        offTo' := 0;
        t' := store[t.value].next;
        i' := i + 1;
      }
      CopyEnd(s0, p, ps, store, all, done', i', t', offTo', f', rest', offFrom');
    }

    /** Copy n bytes from a pbuf that is not in ps to the place behind what ps has taken. */
    method CopyChunk(t: nat, f: nat, offTo: nat, offFrom: nat, n: nat,
                     ghost s0: Store, ghost ps: seq<nat>, ghost done: seq<Byte>, ghost i: nat)
      requires (forall x :: x in ps ==> x in s0) && !Repeats(ps) && i < |ps| && t == ps[i] && f !in ps && f in store
      requires store == TakeStore(s0, ps, done) && |done| == |Bytes(s0, ps[..i])| + offTo
      requires offTo + n <= |s0[t].payload| && offFrom + n <= |store[f].payload|
      modifies this`store
      ensures store == TakeStore(s0, ps, done + old(store)[f].payload[offFrom..offFrom + n])
      ensures forall q :: q in old(store) && q != t ==> q in store && store[q] == old(store)[q]
    {
      TakeExtend(s0, ps, done, store[f].payload[offFrom..offFrom + n], i, offTo);
      var was := store[t].payload;
      store := store[t := store[t].(payload := was[..offTo] + store[f].payload[offFrom..offFrom + n] + was[offTo + n..])];
    }

    /** pbuf_get_at; ps lists the chain of p */
    method GetAt(p: Option<nat>, offset: nat, ghost ps: seq<nat>) returns (b: Byte)
      requires IsChain(store, p, ps) && forall x :: x in ps ==> x in store
      ensures b == ByteAt(Bytes(store, ps), offset)
    {
      var q, from := p, offset;
      ghost var rest := ps;
      while q.Some? && |store[q.value].payload| <= from
        invariant (forall x :: x in rest ==> x in store) && IsChain(store, q, rest)
        invariant from >= 0 && ByteAt(Bytes(store, rest), from) == ByteAt(Bytes(store, ps), offset)
        decreases |rest|
      {
        from := from - |store[q.value].payload|;
        q := store[q.value].next;
        rest := rest[1..];
      }
      if q.Some? && |store[q.value].payload| > from {
        b := store[q.value].payload[from];
      } else {
        b := 0;
      }
    }

    /** pbuf_memcmp: 0 if equal, 0xffff if p is too short, else one more than where they differ first */
    method Memcmp(p: Option<nat>, offset: nat, s2: seq<Byte>, ghost ps: seq<nat>) returns (d: nat, ghost skip: nat)
      requires IsChain(store, p, ps) && forall x :: x in ps ==> x in store
      ensures Computed(Bytes(store, ps), skip, offset, s2, d)
      ensures offset + |s2| <= 0x1_0000 ==> Compared(Bytes(store, ps), offset, s2, d)
    {
      var q, start := p, offset;
      ghost var rest, text := ps, Bytes(store, ps);
      while q.Some? && |store[q.value].payload| <= start
        invariant (forall x :: x in rest ==> x in store) && IsChain(store, q, rest)
        invariant 0 <= start <= offset && offset - start <= |text| && Bytes(store, rest) == text[offset - start..]
        decreases |rest|
      {
        assert text[offset - start..][|store[q.value].payload|..] == text[offset - start + |store[q.value].payload|..];
        start := start - |store[q.value].payload|;
        q := store[q.value].next;
        rest := rest[1..];
      }
      skip := offset - start;
      d := 0xffff;
      if q.Some? && |store[q.value].payload| > start {
        d := CompareFrom(q, start, s2, rest, text, offset);
      }
      if offset + |s2| <= 0x1_0000 { ComputedIsCompared(text, skip, offset, s2, d); }
    }

    /** The comparing loop, from the pbuf that was found. */
    method CompareFrom(q: Option<nat>, start: nat, s2: seq<Byte>, ghost rest: seq<nat>, ghost text: seq<Byte>, ghost offset: nat)
      returns (d: nat)
      requires IsChain(store, q, rest) && (forall x :: x in rest ==> x in store)
      requires start <= offset < |text| && Bytes(store, rest) == text[offset - start..]
      ensures Computed(text, offset - start, offset, s2, d)
    {
      var i := 0;
      while i < |s2|
        invariant 0 <= i <= |s2|
        invariant forall j :: 0 <= j < i ==> CutByte(text, offset - start, offset, j) == s2[j]
      {
        var a := GetAt(q, (start + i) % 0x1_0000, rest);
        assert a == CutByte(text, offset - start, offset, i);
        if a != s2[i] {
          return i + 1;
        }
        i := i + 1;
      }
      d := 0;
    }

    /** pbuf_memfind; 0xffff stands for not found */
    method Memfind(p: nat, mem: seq<Byte>, start: nat, ghost ps: seq<nat>) returns (at: nat)
      requires IsChain(store, Some(p), ps) && (forall x :: x in ps ==> x in store) && p in store && Totals(store, ps)
      requires |Bytes(store, ps)| <= 0xffff
      ensures at == FoundAt(Bytes(store, ps), mem, start)
    {
      var total := store[p].totLen;
      ghost var text := Bytes(store, ps);
      if total >= |mem| + start {
        var i := start;
        while i <= total - |mem|
          invariant 0 <= i <= 0xffff
          invariant Searching(text, mem, start, i)
          decreases if mem != [] then total + 1 - i else if i == total then 1 else 0
        {
          var plus, _ := Memcmp(Some(p), i, mem, ps);
          SearchStep(text, mem, start, i, plus);
          if plus == 0 {
            return i;
          }
          i := (i + plus) % 0x1_0000;
        }
      }
      at := 0xffff;
    }
  }

  lemma {:induction false} PoolUsedUp(pool0: set<nat>, ps: seq<nat>)
    requires pool0 - (set q | q in ps) == {}
    ensures |pool0| <= |ps|
    decreases |ps|
  {
    if ps == [] {
      assert pool0 == pool0 - (set q | q in ps);
    } else {
      var pool1 := pool0 - {ps[0]};
      assert ps == [ps[0]] + ps[1..];
      assert pool1 - (set q | q in ps[1..]) == {};
      PoolUsedUp(pool1, ps[1..]);
      assert |pool0| <= |pool1| + 1 by {
        if ps[0] in pool0 { assert pool0 == pool1 + {ps[0]}; } else { assert pool0 == pool1; }
      }
    }
  }
}
