/**
  The byte-level operations on pbuf chains.  All of them act on the concatenated
  bytes of a chain; how the bytes are cut into segments makes no difference.
*/
module PbufBytes {
  import opened Common
  import opened PbufStore
  import opened PbufRefs

  function Min(a: int, b: int): int {
    if a <= b then a else b
  }

  // ------------------------------------------------------------- pbuf_take

  /** Write data over the beginning of the chain, segment by segment. */
  function TakeStore(s: Store, ps: seq<nat>, data: seq<Byte>): Store
    requires forall q :: q in ps ==> q in s
    decreases |ps|
  {
    if ps == [] || data == [] then s
    else
      var p := ps[0];
      var n := Min(|data|, |s[p].payload|);
      TakeStore(s[p := s[p].(payload := data[..n] + s[p].payload[n..])], ps[1..], data[n..])
  }

  /** Only payload bytes of the chain change; every length stays. */
  lemma {:induction false} TakeFrame(s: Store, ps: seq<nat>, data: seq<Byte>, q: nat)
    requires (forall x :: x in ps ==> x in s) && q in s
    ensures TakeStore(s, ps, data).Keys == s.Keys
    ensures TakeStore(s, ps, data)[q] == s[q].(payload := TakeStore(s, ps, data)[q].payload)
    ensures |TakeStore(s, ps, data)[q].payload| == |s[q].payload|
    ensures q !in ps ==> TakeStore(s, ps, data)[q] == s[q]
    decreases |ps|
  {
    if ps != [] && data != [] {
      var p := ps[0];
      var n := Min(|data|, |s[p].payload|);
      TakeFrame(s[p := s[p].(payload := data[..n] + s[p].payload[n..])], ps[1..], data[n..], q);
    }
  }

  /** Taking data replaces the first bytes of the chain and nothing else. */
  lemma {:induction false} TakeBytes(s: Store, ps: seq<nat>, data: seq<Byte>)
    requires (forall x :: x in ps ==> x in s) && !Repeats(ps) && |data| <= |Bytes(s, ps)|
    ensures forall x :: x in ps ==> x in TakeStore(s, ps, data)
    ensures Bytes(TakeStore(s, ps, data), ps) == data + Bytes(s, ps)[|data|..]
    decreases |ps|
  {
    if ps == [] || data == [] {
      assert data == [];
    } else {
      var p := ps[0];
      var n := Min(|data|, |s[p].payload|);
      var mine := data[..n] + s[p].payload[n..];
      var s1 := s[p := s[p].(payload := mine)];
      TailDistinct(ps);
      BytesFrame(s, s1, ps[1..]);
      TakeBytes(s1, ps[1..], data[n..]);
      TakeFrame(s1, ps[1..], data[n..], p);
      assert TakeStore(s, ps, data)[p].payload == mine;
      OverlayJoin(data, s[p].payload, Bytes(s, ps[1..]));
    }
  }

  lemma OverlayJoin(d: seq<Byte>, a: seq<Byte>, rest: seq<Byte>)
    requires |d| <= |a| + |rest|
    ensures var n := Min(|d|, |a|);
      n <= |d| && |d| - n <= |rest| &&
      (d[..n] + a[n..]) + (d[n..] + rest[|d| - n..]) == d + (a + rest)[|d|..]
  {
    if |d| <= |a| {
      assert d[|d|..] == [] && rest[0..] == rest;
    } else {
      assert a[|a|..] == [] && (a + rest)[|d|..] == rest[|d| - |a|..];
    }
  }

  lemma TailDistinct(ps: seq<nat>)
    requires ps != [] && !Repeats(ps)
    ensures !Repeats(ps[1..]) && ps[0] !in ps[1..]
  {
    forall i, j | 0 <= i < j < |ps[1..]| ensures ps[1..][i] != ps[1..][j] {
      assert ps[i + 1] != ps[j + 1];
    }
    forall j | 0 <= j < |ps[1..]| ensures ps[1..][j] != ps[0] {
      assert ps[0] != ps[j + 1];
    }
  }

  /** Overwrite the bytes of pbuf q from offset o on. */
  function Put(s: Store, q: nat, o: nat, chunk: seq<Byte>): Store
    requires q in s && o + |chunk| <= |s[q].payload|
  {
    s[q := s[q].(payload := s[q].payload[..o] + chunk + s[q].payload[o + |chunk|..])]
  }

  /** Writing a chunk just behind what has been taken is taking the longer data. */
  lemma {:induction false} TakeExtend(s: Store, ps: seq<nat>, done: seq<Byte>, chunk: seq<Byte>, i: nat, o: nat)
    requires (forall x :: x in ps ==> x in s) && !Repeats(ps) && i < |ps|
    requires |done| == |Bytes(s, ps[..i])| + o && o + |chunk| <= |s[ps[i]].payload|
    ensures ps[i] in TakeStore(s, ps, done) && |TakeStore(s, ps, done)[ps[i]].payload| == |s[ps[i]].payload|
    ensures TakeStore(s, ps, done + chunk) == Put(TakeStore(s, ps, done), ps[i], o, chunk)
    decreases i
  {
    TakeFrame(s, ps, done, ps[i]);
    if done == [] && chunk == [] {
      PutNothing(s, ps[i], o);
      assert done + chunk == [];
    } else if i == 0 {
      assert ps[..0] == [];
      TakeExtendFirst(s, ps, done, chunk);
    } else {
      assert ps[..i][1..] == ps[1..][..i - 1];
      TailDistinct(ps);
      var p, n := ps[0], |s[ps[0]].payload|;
      var s1 := s[p := s[p].(payload := done[..n])];
      assert done[..n] + s[p].payload[n..] == done[..n] && (done + chunk)[..n] + s[p].payload[n..] == done[..n];
      assert (done + chunk)[n..] == done[n..] + chunk;
      if done == [] { assert s1 == s; }
      BytesFrame(s, s1, ps[1..][..i - 1]);
      TakeExtend(s1, ps[1..], done[n..], chunk, i - 1, o);
    }
  }

  lemma PutNothing(s: Store, q: nat, o: nat)
    requires q in s && o <= |s[q].payload|
    ensures Put(s, q, o, []) == s
  {
    var was := s[q].payload;
    assert was[..o] + [] + was[o..] == was;
  }

  /** Data that ends inside the first segment changes only that. */
  lemma TakeFirst(s: Store, ps: seq<nat>, data: seq<Byte>)
    requires ps != [] && (forall x :: x in ps ==> x in s) && |data| <= |s[ps[0]].payload|
    ensures TakeStore(s, ps, data) == s[ps[0] := s[ps[0]].(payload := data + s[ps[0]].payload[|data|..])]
  {
    var was := s[ps[0]].payload;
    if data == [] {
      assert data + was[|data|..] == was;
    } else {
      assert data[..|data|] == data && data[|data|..] == [];
    }
  }

  lemma TakeExtendFirst(s: Store, ps: seq<nat>, done: seq<Byte>, chunk: seq<Byte>)
    requires ps != [] && (forall x :: x in ps ==> x in s) && |done| + |chunk| <= |s[ps[0]].payload|
    ensures ps[0] in TakeStore(s, ps, done) && |TakeStore(s, ps, done)[ps[0]].payload| == |s[ps[0]].payload|
    ensures TakeStore(s, ps, done + chunk) == Put(TakeStore(s, ps, done), ps[0], |done|, chunk)
  {
    TakeFirst(s, ps, done);
    TakeFirst(s, ps, done + chunk);
    var was, o := s[ps[0]].payload, |done|;
    var mid := done + was[o..];
    assert mid[..o] + chunk + mid[o + |chunk|..] == (done + chunk) + was[|done + chunk|..];
  }

  // ---------------------------------------------------- pbuf_copy_partial, pbuf_get_at

  /** At most `len` of the bytes b from `offset` on. */
  function Wanted(b: seq<Byte>, offset: nat, len: nat): seq<Byte> {
    if offset >= |b| then [] else b[offset..Min(offset + len, |b|)]
  }

  lemma WantedSkip(a: seq<Byte>, b: seq<Byte>, offset: nat, len: nat)
    requires offset >= |a|
    ensures Wanted(a + b, offset, len) == Wanted(b, offset - |a|, len)
  {
  }

  lemma WantedSplit(a: seq<Byte>, b: seq<Byte>, offset: nat, len: nat)
    requires offset < |a| || offset == 0
    ensures var n := Min(|a| - offset, len);
      offset + n <= |a| && Wanted(a + b, offset, len) == a[offset..offset + n] + Wanted(b, 0, len - n)
  {
  }

  /** One segment further: what is behind it is wanted less by what it had. */
  lemma WantedStep(out: seq<Byte>, here: seq<Byte>, more: seq<Byte>, skip: nat, left: nat)
    ensures if skip != 0 && skip >= |here| then Wanted(here + more, skip, left) == Wanted(more, skip - |here|, left)
      else
        var n := Min(|here| - skip, left);
        out + here[skip..skip + n] + Wanted(more, 0, left - n) == out + Wanted(here + more, skip, left)
  {
    if skip != 0 && skip >= |here| {
      WantedSkip(here, more, skip, left);
    } else {
      WantedSplit(here, more, skip, left);
    }
  }

  /** Reading back what was taken gives the data, whatever the segmentation. */
  lemma TakeThenCopy(s: Store, p: nat, ps: seq<nat>, data: seq<Byte>)
    requires IsChain(s, Some(p), ps) && (forall x :: x in ps ==> x in s) && |data| <= |Bytes(s, ps)|
    ensures (forall x :: x in ps ==> x in TakeStore(s, ps, data))
    ensures IsChain(TakeStore(s, ps, data), Some(p), ps)
    ensures Wanted(Bytes(TakeStore(s, ps, data), ps), 0, |data|) == data
  {
    ChainDistinct(s, Some(p), ps);
    TakeBytes(s, ps, data);
    forall x | x in ps ensures TakeStore(s, ps, data)[x].next == s[x].next {
      TakeFrame(s, ps, data, x);
    }
    ChainFrame(s, TakeStore(s, ps, data), Some(p), ps);
  }

  /** The byte at an offset, zero beyond the end. */
  function ByteAt(b: seq<Byte>, offset: nat): Byte {
    if offset < |b| then b[offset] else 0
  }

  // ----------------------------------------------------------------- pbuf_memfind

  /** How far mem agrees with the text at i, the first k bytes being known to agree. */
  function Agree(text: seq<Byte>, i: nat, mem: seq<Byte>, k: nat): (n: nat)
    requires k <= |mem| && i + |mem| <= |text|
    ensures k <= n <= |mem|
    ensures forall j :: k <= j < n ==> text[i + j] == mem[j]
    ensures n < |mem| ==> text[i + n] != mem[n]
    decreases |mem| - k
  {
    if k == |mem| || text[i + k] != mem[k] then k else Agree(text, i, mem, k + 1)
  }

  predicate OccursAt(text: seq<Byte>, mem: seq<Byte>, i: nat) {
    i + |mem| <= |text| && forall j :: 0 <= j < |mem| ==> text[i + j] == mem[j]
  }

  /** The search of pbuf_memfind: after a mismatch it skips everything compared so far. */
  function SkipSearch(text: seq<Byte>, mem: seq<Byte>, i: nat): Option<nat>
    decreases if i <= |text| then |text| + 1 - i else 0
  {
    if i + |mem| > |text| then None
    else if Agree(text, i, mem, 0) == |mem| then Some(i)
    else SkipSearch(text, mem, i + Agree(text, i, mem, 0) + 1)
  }

  /** A hit is an occurrence. */
  lemma {:induction false} HitIsOccurrence(text: seq<Byte>, mem: seq<Byte>, i: nat)
    requires SkipSearch(text, mem, i).Some?
    ensures OccursAt(text, mem, SkipSearch(text, mem, i).value) && SkipSearch(text, mem, i).value >= i
    decreases if i <= |text| then |text| + 1 - i else 0
  {
    var k := Agree(text, i, mem, 0);
    if k < |mem| {
      HitIsOccurrence(text, mem, i + k + 1);
    }
  }

  predicate AllSame(mem: seq<Byte>) {
    forall j :: 0 <= j < |mem| ==> mem[j] == mem[0]
  }

  /** With a pattern of equal bytes the skip is safe: the first occurrence is found. */
  lemma {:induction false} UniformPatternFound(text: seq<Byte>, mem: seq<Byte>, i: nat, at: nat)
    requires mem != [] && AllSame(mem) && i <= at && OccursAt(text, mem, at)
    ensures SkipSearch(text, mem, i).Some? && SkipSearch(text, mem, i).value <= at
    decreases at - i
  {
    var k := Agree(text, i, mem, 0);
    if k < |mem| {
      forall j | at <= j < at + |mem| ensures text[j] == mem[0] {
        assert text[at + (j - at)] == mem[j - at];
      }
      assert text[i + k] != mem[0];
      UniformPatternFound(text, mem, i + k + 1, at);
    }
  }

  /** Any other pattern is missed in some text that contains it. */
  lemma MixedPatternMissed(mem: seq<Byte>) returns (text: seq<Byte>, at: nat)
    requires !AllSame(mem)
    ensures OccursAt(text, mem, at) && SkipSearch(text, mem, 0) == None
  {
    var k := FirstOther(mem, 1);
    // k copies of the first byte in front of the pattern
    text, at := mem[..k] + mem, k;
    forall j | 0 <= j < |mem| ensures text[k + j] == mem[j] { }
    forall j | 0 <= j < k ensures text[0 + j] == mem[j] { }
    assert text[0 + k] == mem[0] != mem[k];
    var n := Agree(text, 0, mem, 0);
    assert SkipSearch(text, mem, 0) == SkipSearch(text, mem, k + 1);
  }

  /** The first byte of the pattern that differs from its beginning. */
  function FirstOther(mem: seq<Byte>, i: nat): (k: nat)
    requires 1 <= i <= |mem| && !AllSame(mem) && forall j :: 0 <= j < i ==> mem[j] == mem[0]
    ensures i <= k < |mem| && mem[k] != mem[0] && forall j :: 0 <= j < k ==> mem[j] == mem[0]
    decreases |mem| - i
  {
    if i < |mem| && mem[i] != mem[0] then i else FirstOther(mem, i + 1)
  }

  /** pbuf_memfind finds a pattern in every text that contains it if and only if all
      bytes of the pattern are equal. */
  lemma MemfindCompleteExactly(mem: seq<Byte>)
    requires mem != []
    ensures AllSame(mem) <==>
      forall text: seq<Byte>, at: nat :: OccursAt(text, mem, at) ==> SkipSearch(text, mem, 0).Some?
  {
    if AllSame(mem) {
      forall text: seq<Byte>, at: nat | OccursAt(text, mem, at) ensures SkipSearch(text, mem, 0).Some? {
        UniformPatternFound(text, mem, 0, at);
      }
    } else {
      var text, at := MixedPatternMissed(mem);
      assert OccursAt(text, mem, at) && SkipSearch(text, mem, 0) == None;
    }
  }

  // ------------------------------------------------------------------ pbuf_realloc

  /** Position of the pbuf that becomes the last when the chain is cut to rem bytes. */
  function LastKept(s: Store, ps: seq<nat>, rem: int): (k: nat)
    requires ps != [] && forall q :: q in ps ==> q in s
    ensures k < |ps|
    decreases |ps|
  {
    if |ps| > 1 && rem > |s[ps[0]].payload| then 1 + LastKept(s, ps[1..], rem - |s[ps[0]].payload|) else 0
  }

  /** The length fields after cutting the chain to rem bytes; the tail is still linked. */
  function ShrinkStore(s: Store, ps: seq<nat>, rem: int, grow: int): Store
    requires ps != [] && forall q :: q in ps ==> q in s
    decreases |ps|
  {
    var p := ps[0];
    if |ps| > 1 && rem > |s[p].payload| then
      ShrinkStore(s[p := s[p].(totLen := s[p].totLen + grow)], ps[1..], rem - |s[p].payload|, grow)
    else
      s[p := s[p].(payload := s[p].payload[..if 0 <= rem <= |s[p].payload| then rem else |s[p].payload|], totLen := rem)]
  }

  /** Only lengths and the end of one payload change. */
  lemma {:induction false} ShrinkFrame(s: Store, ps: seq<nat>, rem: int, grow: int, q: nat)
    requires ps != [] && (forall x :: x in ps ==> x in s) && q in s
    ensures ShrinkStore(s, ps, rem, grow).Keys == s.Keys
    ensures ShrinkStore(s, ps, rem, grow)[q].next == s[q].next && ShrinkStore(s, ps, rem, grow)[q].ref == s[q].ref
    ensures q !in ps ==> ShrinkStore(s, ps, rem, grow)[q] == s[q]
    decreases |ps|
  {
    var p := ps[0];
    if |ps| > 1 && rem > |s[p].payload| {
      ShrinkFrame(s[p := s[p].(totLen := s[p].totLen + grow)], ps[1..], rem - |s[p].payload|, grow, q);
    }
  }

  /** Every tot_len of the chain is the number of bytes from there on. */
  predicate Totals(s: Store, ps: seq<nat>)
    requires forall q :: q in ps ==> q in s
    decreases |ps|
  {
    ps == [] || (s[ps[0]].totLen == |Bytes(s, ps)| && Totals(s, ps[1..]))
  }

  lemma {:induction false} TotalsFrame(s: Store, s': Store, ps: seq<nat>)
    requires forall q :: q in ps ==> q in s && q in s' && s'[q].payload == s[q].payload && s'[q].totLen == s[q].totLen
    ensures Totals(s', ps) <==> Totals(s, ps)
    decreases |ps|
  {
    BytesFrame(s, s', ps);
    if ps != [] { TotalsFrame(s, s', ps[1..]); }
  }

  /** Correct tot_len fields all over a store are correct along every chain. */
  lemma {:induction false} TotOkTotals(s: Store, p: Option<nat>, ps: seq<nat>)
    requires IsChain(s, p, ps)
    requires forall q :: q in ps ==> q in s && (s[q].next.Some? ==> s[q].next.value in s) && TotAt(s, q)
    ensures (forall q :: q in ps ==> q in s) && Totals(s, ps)
    decreases |ps|
  {
    TotIsLength(s, p, ps);
    if ps != [] { TotOkTotals(s, s[ps[0]].next, ps[1..]); }
  }

  // --------------------------------------------------- pbuf_cat, pbuf_chain on bytes

  /** Redirecting the end of one chain to the start of another joins the two. */
  lemma {:induction false} ChainJoin(s: Store, s': Store, hs: seq<nat>, t: nat, ts: seq<nat>)
    requires hs != [] && IsChain(s, Some(hs[0]), hs) && IsChain(s', Some(t), ts)
    requires forall q :: q in hs ==>
      q in s && q in s' && q !in ts && s'[q].next == if q == hs[|hs| - 1] then Some(t) else s[q].next
    ensures IsChain(s', Some(hs[0]), hs + ts)
    decreases |hs|
  {
    assert (hs + ts)[1..] == hs[1..] + ts;
    if |hs| == 1 {
      assert hs[1..] + ts == ts;
    } else {
      assert hs[1..][|hs| - 2] == hs[|hs| - 1];
      ChainJoin(s, s', hs[1..], t, ts);
    }
  }

  lemma {:induction false} TotalsJoin(s: Store, s': Store, hs: seq<nat>, ts: seq<nat>)
    requires forall q :: q in hs + ts ==> q in s && q in s' && s'[q].payload == s[q].payload
    requires (forall q :: q in hs ==> q in s && q in s') && forall q :: q in ts ==> q in s && q in s'
    requires Totals(s, hs) && Totals(s', ts)
    requires forall q :: q in hs ==> s'[q].totLen == s[q].totLen + |Bytes(s, ts)|
    ensures Totals(s', hs + ts)
    decreases |hs|
  {
    if hs == [] {
      assert hs + ts == ts;
    } else {
      var p := hs[0];
      assert (hs + ts)[0] == p && (hs + ts)[1..] == hs[1..] + ts;
      forall q | q in hs[1..] + ts ensures q in hs + ts { }
      TotalsJoin(s, s', hs[1..], ts);
      BytesFrame(s, s', hs + ts);
      BytesAppend(s, hs, ts);
      assert s'[p].totLen == |Bytes(s', hs + ts)|;
    }
  }

  /** The chains hs and ts of s are one chain of s' that carries the bytes of the first and then those
      of the second, and if the totals were right they still are. */
  ghost predicate Joined(s: Store, s': Store, hs: seq<nat>, ts: seq<nat>) {
    && hs != [] && IsChain(s', Some(hs[0]), hs + ts)
    && (forall q :: q in hs ==> q in s) && (forall q :: q in ts ==> q in s) && (forall q :: q in hs + ts ==> q in s')
    && Bytes(s', hs + ts) == Bytes(s, hs) + Bytes(s, ts)
    && (Totals(s, hs) && Totals(s, ts) ==> Totals(s', hs + ts))
  }

  /** pbuf_cat joins two chains that have no pbuf in common. */
  lemma CatMeaning(s: Store, hs: seq<nat>, t: nat, ts: seq<nat>)
    requires hs != [] && IsChain(s, Some(hs[0]), hs) && IsChain(s, Some(t), ts)
    requires forall q :: q in hs ==> q !in ts
    ensures t in s && (forall q :: q in hs ==> q in s) && Joined(s, CatStore(s, hs, t, s[t].totLen), hs, ts)
  {
    ChainIn(s, Some(hs[0]), hs);
    ChainIn(s, Some(t), ts);
    ChainDistinct(s, Some(hs[0]), hs);
    var add := s[t].totLen;
    var s' := CatStore(s, hs, t, add);
    forall q | q in hs + ts
      ensures q in s' && s'[q].payload == s[q].payload
        && (q in ts ==> s'[q] == s[q])
        && (q in hs ==> s'[q].totLen == s[q].totLen + add && s'[q].next == if q == hs[|hs| - 1] then Some(t) else s[q].next)
    {
      CatAt(s, hs, t, add, q);
    }
    forall q | q in ts ensures q in s' && s'[q] == s[q] { assert q in hs + ts; }
    forall q | q in hs
      ensures q in s' && s'[q].totLen == s[q].totLen + add && s'[q].next == if q == hs[|hs| - 1] then Some(t) else s[q].next
    {
      assert q in hs + ts;
    }
    ChainFrame(s, s', Some(t), ts);
    ChainJoin(s, s', hs, t, ts);
    BytesFrame(s, s', hs + ts);
    BytesAppend(s, hs, ts);
    if Totals(s, hs) && Totals(s, ts) {
      TotalsFrame(s, s', ts);
      TotalsJoin(s, s', hs, ts);
    }
  }

  /** So does pbuf_chain. */
  lemma ChainOnMeaning(s: Store, hs: seq<nat>, t: nat, ts: seq<nat>)
    requires hs != [] && IsChain(s, Some(hs[0]), hs) && IsChain(s, Some(t), ts)
    requires forall q :: q in hs ==> q !in ts
    ensures t in s && (forall q :: q in hs ==> q in s) && t in CatStore(s, hs, t, s[t].totLen)
    ensures Joined(s, RefStore(CatStore(s, hs, t, s[t].totLen), t), hs, ts)
  {
    CatMeaning(s, hs, t, ts);
    var s1 := CatStore(s, hs, t, s[t].totLen);
    assert t in hs + ts;
    var s2 := RefStore(s1, t);
    ChainFrame(s1, s2, Some(hs[0]), hs + ts);
    BytesFrame(s1, s2, hs + ts);
    TotalsFrame(s1, s2, hs + ts);
  }

  /** If t does not lead to the end of hs, the two chains have no pbuf in common. */
  lemma ChainsApart(s: Store, rank: Rank, hs: seq<nat>, t: nat)
    requires Ranked(s, rank) && t in s && hs != [] && IsChain(s, Some(hs[0]), hs)
    requires hs[|hs| - 1] !in Chain(s, rank, t)
    ensures forall q :: q in hs ==> q !in Chain(s, rank, t)
  {
    var ts := Chain(s, rank, t);
    forall q | q in hs ensures q !in ts {
      if q in ts {
        InTail(s, rank, hs, q);
        var k :| 0 <= k < |ts| && ts[k] == q;
        ChainSuffix(s, Some(t), ts, k);
        ChainUnique(s, Some(q), ts[k..], Chain(s, rank, q));
      }
    }
  }

  /** In a store whose totals are right, pbuf_cat of a chain and a pbuf that does not lead back to it
      gives one chain with the bytes of both and right totals, whatever else links into them. */
  lemma CatJoins(s: Store, rank: Rank, hs: seq<nat>, t: nat)
    requires TotOk(s, rank) && t in s && hs != [] && IsChain(s, Some(hs[0]), hs)
    requires hs[|hs| - 1] !in Chain(s, rank, t)
    ensures forall q :: q in hs ==> q in s
    ensures var s', ts := CatStore(s, hs, t, s[t].totLen), Chain(s, rank, t);
      Joined(s, s', hs, ts) && Totals(s', hs + ts)
  {
    var ts := Chain(s, rank, t);
    ChainIn(s, Some(hs[0]), hs);
    ChainIn(s, Some(t), ts);
    forall q | q in s ensures TotAt(s, q) && (s[q].next.Some? ==> s[q].next.value in s) {
      assert TotOkAt(s, rank, q);
    }
    TotOkTotals(s, Some(hs[0]), hs);
    TotOkTotals(s, Some(t), ts);
    ChainsApart(s, rank, hs, t);
    CatMeaning(s, hs, t, ts);
  }

  lemma {:induction false} LastKeptFrame(s: Store, s': Store, ps: seq<nat>, rem: int)
    requires ps != [] && forall q :: q in ps ==> q in s && q in s' && s'[q].payload == s[q].payload
    ensures LastKept(s', ps, rem) == LastKept(s, ps, rem)
    decreases |ps|
  {
    if |ps| > 1 && rem > |s[ps[0]].payload| {
      LastKeptFrame(s, s', ps[1..], rem - |s[ps[0]].payload|);
    }
  }

  /** The pbufs keep hold exactly the bytes b, and their totals say so. */
  ghost predicate Holds(t: Store, keep: seq<nat>, b: seq<Byte>) {
    (forall x :: x in keep ==> x in t) && Bytes(t, keep) == b && Totals(t, keep)
  }

  lemma HoldsOne(t: Store, p: nat, b: seq<Byte>)
    requires p in t && t[p].payload == b && t[p].totLen == |b|
    ensures Holds(t, [p], b)
  {
    assert [p][1..] == [];
    assert Bytes(t, [p]) == b + [];
  }

  lemma HoldsMore(t: Store, p: nat, keep: seq<nat>, b: seq<Byte>)
    requires Holds(t, keep, b) && p in t && t[p].totLen == |t[p].payload| + |b|
    ensures Holds(t, [p] + keep, t[p].payload + b)
  {
    assert ([p] + keep)[1..] == keep;
  }

  /** The kept segments hold exactly the first rem bytes, and their totals say so. */
  lemma {:induction false} ShrinkBytes(s: Store, ps: seq<nat>, rem: int, grow: int)
    requires ps != [] && (forall x :: x in ps ==> x in s) && !Repeats(ps)
    requires 0 <= rem < |Bytes(s, ps)| && grow == rem - |Bytes(s, ps)| && Totals(s, ps)
    ensures Holds(ShrinkStore(s, ps, rem, grow), ps[..LastKept(s, ps, rem) + 1], Bytes(s, ps)[..rem])
    decreases |ps|
  {
    var p := ps[0];
    var t, k := ShrinkStore(s, ps, rem, grow), LastKept(s, ps, rem);
    if |ps| > 1 && rem > |s[p].payload| {
      var s1 := s[p := s[p].(totLen := s[p].totLen + grow)];
      TailDistinct(ps);
      BytesFrame(s, s1, ps[1..]);
      TotalsFrame(s, s1, ps[1..]);
      LastKeptFrame(s, s1, ps[1..], rem - |s[p].payload|);
      ShrinkBytes(s1, ps[1..], rem - |s[p].payload|, grow);
      ShrinkFrame(s1, ps[1..], rem - |s[p].payload|, grow, p);
      HoldsMore(t, p, ps[1..][..k], Bytes(s, ps[1..])[..rem - |s[p].payload|]);
      assert ps[..k + 1] == [p] + ps[1..][..k];
      assert Bytes(s, ps)[..rem] == s[p].payload + Bytes(s, ps[1..])[..rem - |s[p].payload|];
    } else {
      assert |ps| == 1 ==> ps[1..] == [];
      HoldsOne(t, p, s[p].payload[..rem]);
      assert ps[..k + 1] == [p] && Bytes(s, ps)[..rem] == s[p].payload[..rem];
    }
  }

  /** What pbuf_free releases lies at or below the rank of where it starts. */
  lemma {:induction false} ReleasedBelow(s: Store, whole: Store, rank: Rank, n: nat, x: nat)
    requires Ranked(whole, rank) && n in s && x in Released(s, n)
    requires forall q :: q in s ==> q in whole && s[q].next == whole[q].next
    ensures x in s && x in rank && n in rank && rank[x] <= rank[n]
    decreases |s.Keys|
  {
    assert LinkOk(whole, rank, n);
    if x != n {
      Smaller(s, n);
      ReleasedBelow(s - {n}, whole, rank, s[n].next.value, x);
    }
  }

  /**
    pbuf_realloc to a smaller length: the chain becomes its first segments, holding
    exactly the first bytes, with correct totals, and the caller's references are as before.
  */
  lemma ReallocMeaning(s: Store, held: multiset<nat>, rank: Rank, p: nat, ps: seq<nat>, n: nat)
    requires RefInv(s, held, rank) && p in s && IsChain(s, Some(p), ps) && (forall x :: x in ps ==> x in s)
    requires n < |Bytes(s, ps)| && Totals(s, ps)
    ensures var t, keep := ReallocStore(s, ps, n), ps[..LastKept(s, ps, n) + 1];
      && IsChain(t, Some(p), keep) && (forall x :: x in keep ==> x in t)
      && Bytes(t, keep) == Bytes(s, ps)[..n] && Totals(t, keep) && RefInv(t, held, rank)
  {
    var k := LastKept(s, ps, n);
    var keep, q := ps[..k + 1], ps[k];
    var s1 := ShrinkStore(s, ps, n, n - |Bytes(s, ps)|);
    var t := ReallocStore(s, ps, n);
    ChainDistinct(s, Some(p), ps);
    ShrinkBytes(s, ps, n, n - |Bytes(s, ps)|);
    assert Holds(s1, keep, Bytes(s, ps)[..n]);
    ShrinkKeeps(s, held, rank, p, ps, n, n - |Bytes(s, ps)|);
    ChainSuffix(s1, Some(p), ps, k);
    if s1[q].next.Some? {
      CutAfter(s1, held, rank, p, ps, k);
    } else {
      assert Unlink(s1, q) == s1;
    }
    CutChain(s1, t, ps, k, p);
    BytesFrame(s1, t, keep);
    TotalsFrame(s1, t, keep);
  }

  lemma ShrinkSame(s: Store, ps: seq<nat>, rem: int, grow: int)
    requires ps != [] && forall x :: x in ps ==> x in s
    ensures ShrinkStore(s, ps, rem, grow).Keys == s.Keys
    ensures forall x :: x in s ==>
      && x in ShrinkStore(s, ps, rem, grow)
      && ShrinkStore(s, ps, rem, grow)[x].next == s[x].next && ShrinkStore(s, ps, rem, grow)[x].ref == s[x].ref
  {
    ShrinkFrame(s, ps, rem, grow, ps[0]);
    forall x | x in s
      ensures x in ShrinkStore(s, ps, rem, grow)
        && ShrinkStore(s, ps, rem, grow)[x].next == s[x].next && ShrinkStore(s, ps, rem, grow)[x].ref == s[x].ref
    {
      ShrinkFrame(s, ps, rem, grow, x);
    }
  }

  lemma ShrinkKeeps(s: Store, held: multiset<nat>, rank: Rank, p: nat, ps: seq<nat>, rem: int, grow: int)
    requires RefInv(s, held, rank) && ps != [] && IsChain(s, Some(p), ps) && (forall x :: x in ps ==> x in s)
    ensures var s1 := ShrinkStore(s, ps, rem, grow);
      RefInv(s1, held, rank) && IsChain(s1, Some(p), ps) && (forall x :: x in ps ==> x in s1)
  {
    var s1 := ShrinkStore(s, ps, rem, grow);
    ShrinkSame(s, ps, rem, grow);
    LengthsIrrelevant(s, s1, held, rank);
    ChainFrame(s, s1, Some(p), ps);
  }

  lemma CutAfter(s: Store, held: multiset<nat>, rank: Rank, p: nat, ps: seq<nat>, k: nat)
    requires RefInv(s, held, rank) && IsChain(s, Some(p), ps) && (forall x :: x in ps ==> x in s)
    requires k < |ps| && s[ps[k]].next.Some?
    ensures s[ps[k]].next.value in s
    ensures var t := FreeThenCut(s, ps[k], s[ps[k]].next.value);
      RefInv(t, held, rank) && forall x :: x in ps[..k + 1] ==>
        x in t && t[x].payload == s[x].payload && t[x].totLen == s[x].totLen
        && t[x].next == if x == ps[k] then None else s[x].next
  {
    assert LinkOk(s, rank, ps[k]);
    CutKeeps(s, held, rank, ps[k]);
    FreeThenUnlink(s, rank, ps[k], s[ps[k]].next.value);
    KeptSurvive(s, rank, ps, k, p);
  }

  /** Freeing what follows the k-th pbuf of a chain leaves the first k + 1 pbufs alone. */
  lemma KeptSurvive(s: Store, rank: Rank, ps: seq<nat>, k: nat, p: nat)
    requires Ranked(s, rank) && IsChain(s, Some(p), ps) && k < |ps| && ps[k] in s && s[ps[k]].next.Some?
    requires s[ps[k]].next.value in s
    ensures forall x :: x in ps[..k + 1] ==>
      x in s && x in FreeStore(s, s[ps[k]].next.value)
      && FreeStore(s, s[ps[k]].next.value)[x].(ref := 0) == s[x].(ref := 0)
  {
    var n := s[ps[k]].next.value;
    FreeFrame(s, n);
    forall x | x in ps[..k + 1] ensures x in s && x !in Released(s, n) {
      var j := Index(ps[..k + 1], x);
      ChainSuffix(s, Some(p), ps, j);
      RankFalls(s, rank, ps, p, j, k);
      if x in Released(s, n) {
        assert LinkOk(s, rank, ps[k]);
        ReleasedBelow(s, s, rank, n, x);
      }
    }
  }

  lemma {:induction false} RankFalls(s: Store, rank: Rank, ps: seq<nat>, p: nat, j: nat, k: nat)
    requires Ranked(s, rank) && IsChain(s, Some(p), ps) && j <= k < |ps|
    ensures ps[j] in rank && ps[k] in rank && rank[ps[k]] <= rank[ps[j]]
    decreases k - j
  {
    ChainSuffix(s, Some(p), ps, j);
    assert LinkOk(s, rank, ps[j]);
    if j < k { RankFalls(s, rank, ps, p, j + 1, k); }
  }

  lemma {:induction false} CutChain(s: Store, t: Store, ps: seq<nat>, k: nat, p: nat)
    requires IsChain(s, Some(p), ps) && k < |ps|
    requires forall x :: x in ps[..k + 1] ==> x in s && x in t
    requires forall x :: x in ps[..k + 1] ==> t[x].next == if x == ps[k] then None else s[x].next
    ensures IsChain(t, Some(p), ps[..k + 1])
    decreases k
  {
    var keep := ps[..k + 1];
    assert keep[0] == p && p in keep;
    if k == 0 {
      assert keep[1..] == [];
    } else {
      ChainSuffix(s, Some(p), ps, 0);
      ChainSuffix(s, Some(p), ps, 1);
      assert ps[1..][..k] == keep[1..] && ps[1..][k - 1] == ps[k];
      ChainDistinct(s, Some(p), ps);
      assert ps[0] != ps[k];
      forall x | x in keep[1..] ensures x in keep { }
      CutChain(s, t, ps[1..], k - 1, ps[1]);
    }
  }

  /** What pbuf_realloc to n < tot_len bytes leaves. */
  function ReallocStore(s: Store, ps: seq<nat>, n: nat): Store
    requires ps != [] && forall q :: q in ps ==> q in s
  {
    var s1 := ShrinkStore(s, ps, n, n - |Bytes(s, ps)|);
    var q := ps[LastKept(s, ps, n)];
    if q !in s1 then s1
    else if s1[q].next.Some? && s1[q].next.value in s1 then FreeThenCut(s1, q, s1[q].next.value)
    else Unlink(s1, q)
  }

  /** Free the tail, then clear the link to it. */
  function FreeThenCut(s: Store, q: nat, n: nat): Store
    requires q in s && n in s
  {
    if q in FreeStore(s, n) then Unlink(FreeStore(s, n), q) else FreeStore(s, n)
  }
}
