/**
  What the clients of an allocator hold: a map from data pointers to the sizes that
  were promised, kept in step with the used blocks of a tiling.
*/
module Holders {
  import opened Common
  import opened Tiling

  /** Extent of the heap, least length of a block, length of a header. */
  datatype Shape = Shape(size: nat, least: nat, hdr: nat)

  type Live = map<nat, nat>

  /** `ptr` is the data of a used block: handed out and not yet given back. */
  predicate IsData(sh: Shape, bs: Blocks, ptr: nat) {
    ptr >= sh.hdr && Find(bs, ptr - sh.hdr) < |bs| && bs[Find(bs, ptr - sh.hdr)].used
  }

  /** The used block b is live and as big as promised. */
  predicate Owned(sh: Shape, live: Live, b: Block) {
    b.start + sh.hdr in live && b.start + sh.hdr + live[b.start + sh.hdr] <= b.end
  }

  /** Used blocks and live allocations are the same thing, and every block is big enough. */
  ghost predicate Held(sh: Shape, bs: Blocks, live: Live) {
    && sh.least > 0 && Good(bs, sh.size, sh.least)
    && (forall b {:trigger Owned(sh, live, b)} :: b in bs && b.used ==> Owned(sh, live, b))
    && (forall ptr {:trigger IsData(sh, bs, ptr)} :: ptr in live ==> IsData(sh, bs, ptr))
  }

  /** Position of the block behind a live allocation. */
  ghost function Holder(sh: Shape, bs: Blocks, live: Live, ptr: nat): (k: nat)
    requires Held(sh, bs, live) && ptr in live
    ensures k < |bs| && bs[k].start + sh.hdr == ptr && bs[k].used
  {
    assert IsData(sh, bs, ptr);
    Find(bs, ptr - sh.hdr)
  }

  lemma UsedIsData(sh: Shape, bs: Blocks, b: Block)
    requires sh.least > 0 && Good(bs, sh.size, sh.least) && b in bs && b.used
    ensures IsData(sh, bs, b.start + sh.hdr) && bs[Find(bs, b.start)] == b
  {
    var i :| 0 <= i < |bs| && bs[i] == b;
    FindAt(bs, sh.size, sh.least, i);
  }

  lemma HeldBlock(sh: Shape, bs: Blocks, live: Live, ptr: nat) returns (b: Block)
    requires Held(sh, bs, live) && ptr in live
    ensures b in bs && b.used && b.start + sh.hdr == ptr && ptr + live[ptr] <= b.end
    ensures b == bs[Holder(sh, bs, live, ptr)]
  {
    b := bs[Holder(sh, bs, live, ptr)];
    assert Owned(sh, live, b);
  }

  lemma SameStart(sh: Shape, bs: Blocks, b: Block, b': Block)
    requires sh.least > 0 && Good(bs, sh.size, sh.least) && b in bs && b' in bs && b.start == b'.start
    ensures b == b'
  {
    var i :| 0 <= i < |bs| && bs[i] == b;
    var j :| 0 <= j < |bs| && bs[j] == b';
    if i != j { DifferentStarts(bs, sh.size, sh.least, i, j); }
  }

  /** The blocks r are those of bs with used block `gone` (if any) replaced by used block `come` (if any). */
  ghost predicate Replaced(bs: Blocks, r: Blocks, gone: Option<Block>, come: Option<Block>) {
    && (gone.Some? ==> gone.value in bs && gone.value.used)
    && (come.Some? ==> come.value in r && come.value.used)
    && (forall b: Block :: b.used ==> (b in r <==> (b in bs && Some(b) != gone) || Some(b) == come))
  }

  /** Replacing blocks and live allocations alike keeps them in step. */
  lemma ReplaceKeeps(sh: Shape, bs: Blocks, live: Live, r: Blocks, live': Live, gone: Option<Block>, come: Option<Block>)
    requires Held(sh, bs, live) && Good(r, sh.size, sh.least) && Replaced(bs, r, gone, come)
    requires come.Some? ==> Owned(sh, live', come.value)
    requires forall p :: p in live' <==>
      || (p in live && (gone.Some? ==> p != gone.value.start + sh.hdr))
      || (come.Some? && p == come.value.start + sh.hdr)
    requires forall p :: p in live' && (come.Some? ==> p != come.value.start + sh.hdr) ==>
      p in live && live'[p] == live[p]
    requires come.Some? ==> forall b :: b in bs && b.used && b.start == come.value.start ==> Some(b) == gone
    ensures Held(sh, r, live')
  {
    forall b | b in r && b.used ensures Owned(sh, live', b) {
      if Some(b) != come {
        assert Owned(sh, live, b);
        if gone.Some? && b.start == gone.value.start { SameStart(sh, bs, b, gone.value); }
      }
    }
    forall p | p in live' ensures IsData(sh, r, p) {
      if come.Some? && p == come.value.start + sh.hdr {
        UsedIsData(sh, r, come.value);
      } else {
        var b := HeldBlock(sh, bs, live, p);
        UsedIsData(sh, r, b);
      }
    }
  }

  /** A free block that becomes (the beginning of) a new allocation. */
  lemma TakeKeeps(sh: Shape, bs: Blocks, live: Live, r: Blocks, k: nat, promised: nat)
    requires Held(sh, bs, live) && Good(r, sh.size, sh.least) && k < |bs| && k < |r| && !bs[k].used
    requires r[k].start == bs[k].start && bs[k].start + sh.hdr + promised <= r[k].end
    requires Replaced(bs, r, None, Some(r[k]))
    ensures Held(sh, r, live[bs[k].start + sh.hdr := promised])
    ensures bs[k].start + sh.hdr !in live
  {
    if bs[k].start + sh.hdr in live {
      var b := HeldBlock(sh, bs, live, bs[k].start + sh.hdr);
      SameStart(sh, bs, b, bs[k]);
    }
    forall b | b in bs && b.used ensures b.start != bs[k].start {
      if b.start == bs[k].start { SameStart(sh, bs, b, bs[k]); }
    }
    ReplaceKeeps(sh, bs, live, r, live[bs[k].start + sh.hdr := promised], None, Some(r[k]));
  }

  lemma ReleaseKeeps(sh: Shape, bs: Blocks, live: Live, ptr: nat)
    requires Held(sh, bs, live) && ptr in live
    ensures Held(sh, Release(bs, Holder(sh, bs, live, ptr)), live - {ptr})
  {
    var k := Holder(sh, bs, live, ptr);
    var r := Release(bs, k);
    ReleaseGood(bs, sh.size, sh.least, k);
    forall b: Block | b.used ensures b in r <==> b in bs && b != bs[k] {
      ReleaseUsed(bs, sh.size, sh.least, k, b);
    }
    ReplaceKeeps(sh, bs, live, r, live - {ptr}, Some(bs[k]), None);
  }

  lemma StartKeeps(sh: Shape)
    requires 0 < sh.least <= sh.size
    ensures Held(sh, [Block(0, sh.size, false)], map[])
  {
    var bs := [Block(0, sh.size, false)];
    assert BlockOk(bs, sh.size, sh.least, 0);
  }

  /** Two live allocations never overlap, nor does one overlap a header. */
  lemma HeldDisjoint(sh: Shape, bs: Blocks, live: Live, p: nat, q: nat)
    requires Held(sh, bs, live) && p in live && q in live && p < q
    ensures sh.hdr <= p && p + live[p] + sh.hdr <= q && q + live[q] <= sh.size
  {
    var b := HeldBlock(sh, bs, live, p);
    var b' := HeldBlock(sh, bs, live, q);
    var j :| 0 <= j < |bs| && bs[j] == b;
    var j' :| 0 <= j' < |bs| && bs[j'] == b';
    BlocksDisjoint(bs, sh.size, sh.least, if j < j' then j else j', if j < j' then j' else j);
  }

  /** Without live allocations the memory is one free block. */
  lemma NothingHeld(sh: Shape, bs: Blocks, live: Live)
    requires Held(sh, bs, live) && live == map[]
    ensures bs == [Block(0, sh.size, false)]
  {
    forall j | 0 <= j < |bs| ensures !bs[j].used {
      assert bs[j] in bs;
      assert bs[j].used ==> Owned(sh, live, bs[j]);
    }
    AllFreeIsOneBlock(bs, sh.size, sh.least);
  }
}
