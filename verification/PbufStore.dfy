/**
  Packet buffers (pbuf.c): reference-counted segments linked into chains.

  A store maps the addresses of the allocated pbufs to their contents; `len` is the
  length of the payload.  Chains may share tails, so links and caller-held
  references are counted separately.
*/
module PbufStore {
  import opened Common

  type Byte = b: int | 0 <= b < 256

  datatype Pbuf = Pbuf(next: Option<nat>, ref: int, totLen: int, payload: seq<Byte>, pooled: bool)

  type Store = map<nat, Pbuf>

  // ----------------------------------------------------------------- chains

  /** `ps` lists the pbufs from `p` to the end of its chain, without repetition. */
  ghost predicate IsChain(s: Store, p: Option<nat>, ps: seq<nat>)
    decreases |ps|
  {
    if ps == [] then p == None
    else p == Some(ps[0]) && ps[0] in s && ps[0] !in ps[1..] && IsChain(s, s[ps[0]].next, ps[1..])
  }

  /** The bytes of a chain, whatever its segmentation. */
  function Bytes(s: Store, ps: seq<nat>): seq<Byte>
    requires forall q :: q in ps ==> q in s
    decreases |ps|
  {
    if ps == [] then [] else s[ps[0]].payload + Bytes(s, ps[1..])
  }

  lemma {:induction false} ChainIn(s: Store, p: Option<nat>, ps: seq<nat>)
    requires IsChain(s, p, ps)
    ensures forall q :: q in ps ==> q in s
    decreases |ps|
  {
    if ps != [] { ChainIn(s, s[ps[0]].next, ps[1..]); }
  }

  /** Stores that agree on a chain's links have the same chain. */
  lemma {:induction false} ChainFrame(s: Store, s': Store, p: Option<nat>, ps: seq<nat>)
    requires IsChain(s, p, ps)
    requires forall q :: q in ps ==> q in s' && (q in s ==> s'[q].next == s[q].next)
    ensures IsChain(s', p, ps)
    decreases |ps|
  {
    if ps != [] {
      ChainIn(s, p, ps);
      ChainFrame(s, s', s[ps[0]].next, ps[1..]);
    }
  }

  lemma {:induction false} ChainUnique(s: Store, p: Option<nat>, ps: seq<nat>, qs: seq<nat>)
    requires IsChain(s, p, ps) && IsChain(s, p, qs)
    ensures ps == qs
    decreases |ps|
  {
    if ps != [] && qs != [] {
      ChainUnique(s, s[ps[0]].next, ps[1..], qs[1..]);
    }
  }

  lemma {:induction false} ChainSuffix(s: Store, p: Option<nat>, ps: seq<nat>, k: nat)
    requires IsChain(s, p, ps) && k < |ps|
    ensures ps[k] in s && IsChain(s, Some(ps[k]), ps[k..]) && IsChain(s, s[ps[k]].next, ps[k + 1..])
    ensures s[ps[k]].next == if k + 1 < |ps| then Some(ps[k + 1]) else None
    decreases k
  {
    if k > 0 {
      ChainSuffix(s, s[ps[0]].next, ps[1..], k - 1);
      assert ps[1..][k - 1..] == ps[k..] && ps[1..][k..] == ps[k + 1..];
    } else {
      assert ps[0..] == ps;
    }
  }

  lemma {:induction false} BytesFrame(s: Store, s': Store, ps: seq<nat>)
    requires forall q :: q in ps ==> q in s && q in s' && s'[q].payload == s[q].payload
    ensures Bytes(s', ps) == Bytes(s, ps)
    decreases |ps|
  {
    if ps != [] { BytesFrame(s, s', ps[1..]); }
  }

  lemma {:induction false} BytesAppend(s: Store, ps: seq<nat>, qs: seq<nat>)
    requires forall q :: q in ps + qs ==> q in s
    ensures (forall q :: q in ps ==> q in s) && (forall q :: q in qs ==> q in s)
    ensures Bytes(s, ps + qs) == Bytes(s, ps) + Bytes(s, qs)
    decreases |ps|
  {
    forall q | q in ps || q in qs ensures q in s { assert q in ps + qs; }
    if ps == [] {
      assert ps + qs == qs;
    } else {
      assert (ps + qs)[0] == ps[0] && (ps + qs)[1..] == ps[1..] + qs;
      BytesAppend(s, ps[1..], qs);
    }
  }

  // ------------------------------------------------------------ total lengths

  function TotOf(s: Store, p: Option<nat>): int
    requires p.Some? ==> p.value in s
  {
    if p.None? then 0 else s[p.value].totLen
  }

  /** tot_len of a pbuf is its own length plus the tot_len of what follows. */
  predicate TotAt(s: Store, p: nat)
    requires p in s && (s[p].next.Some? ==> s[p].next.value in s)
  {
    s[p].totLen == |s[p].payload| + TotOf(s, s[p].next)
  }

  /** On a chain with correct tot_len fields, tot_len is the number of bytes. */
  lemma {:induction false} TotIsLength(s: Store, p: Option<nat>, ps: seq<nat>)
    requires IsChain(s, p, ps)
    requires forall q :: q in ps ==> q in s && (s[q].next.Some? ==> s[q].next.value in s) && TotAt(s, q)
    ensures (forall q :: q in ps ==> q in s) && TotOf(s, p) == |Bytes(s, ps)|
    decreases |ps|
  {
    if ps != [] {
      assert TotAt(s, ps[0]);
      TotIsLength(s, s[ps[0]].next, ps[1..]);
    }
  }
}
