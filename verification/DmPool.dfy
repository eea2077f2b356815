/**
  The dynamic memory pool (os_dmem.c): next-fit allocation over a circular list of
  blocks with a roving search pointer and a running count of the available bytes.

  The list closes over a small trailer block at the end of the pool that is never
  free.  The blocks before the trailer are a `Tiling`; position |bs| is the trailer.
*/
module DmPool {
  import opened Common
  import opened Tiling
  import opened Holders

  /** Index of the trailer, DM_OVERHEAD, dm_min_allocation. */
  datatype Geometry = Geometry(end: nat, oh: nat, min: nat)

  predicate Sane(g: Geometry) {
    g.oh > 0 && g.end >= g.oh + g.min
  }

  /** The size OS_GetMem really looks for. */
  function Adjusted(g: Geometry, size: nat): (n: nat)
    ensures n >= size && n >= g.min
  {
    if size < g.min then g.min else AlignUp(size)
  }

  /** What OS_GetMem takes for the free bytes at position i. */
  function FreeSize(g: Geometry, bs: Blocks, i: nat): int {
    if i < |bs| && !bs[i].used then bs[i].end - bs[i].start - g.oh else 0
  }

  /** First position from i on, trailer included, with at least n free bytes; |bs| + 1 if none. */
  function FitFrom(g: Geometry, bs: Blocks, i: nat, n: nat): (p: nat)
    requires i <= |bs| + 1
    ensures i <= p <= |bs| + 1
    ensures p <= |bs| ==> FreeSize(g, bs, p) >= n
    ensures forall j: nat :: i <= j < p && j <= |bs| ==> FreeSize(g, bs, j) < n
    decreases |bs| + 1 - i
  {
    if i > |bs| || FreeSize(g, bs, i) >= n then i else FitFrom(g, bs, i + 1, n)
  }

  /** The search of OS_GetMem: around the circle, starting at the search pointer. */
  function NextFit(g: Geometry, bs: Blocks, q: nat, n: nat): (p: nat)
    requires q <= |bs|
    ensures p <= |bs| + 1
    ensures p <= |bs| ==> FreeSize(g, bs, p) >= n
    ensures p == |bs| + 1 ==> forall j: nat :: j <= |bs| ==> FreeSize(g, bs, j) < n
  {
    var a := FitFrom(g, bs, q, n);
    if a <= |bs| then a else FitFrom(g, bs, 0, n)
  }

  /** Take position p for n bytes; taking a used block or the trailer changes nothing. */
  function Take(g: Geometry, bs: Blocks, p: nat, n: nat): Blocks {
    if p >= |bs| then bs
    else if FreeSize(g, bs, p) >= n + g.oh + g.min then Split(bs, p, bs[p].start + g.oh + n, true, false)
    else Mark(bs, p, true)
  }

  /** Where the search pointer is after taking position p. */
  function RoveTake(g: Geometry, bs: Blocks, q: nat, p: nat, n: nat): nat {
    if q == p then (if p >= |bs| then 0 else p + 1)
    else if p < q && |Take(g, bs, p, n)| > |bs| then q + 1
    else q
  }

  // ------------------------------------------------------------ available bytes

  function Payload(g: Geometry, b: Block): int {
    if b.used then 0 else b.end - b.start - g.oh
  }

  /** Sum of the free payloads of the first i blocks. */
  function AvailableTo(g: Geometry, bs: Blocks, i: nat): int
    requires i <= |bs|
  {
    if i == 0 then 0 else AvailableTo(g, bs, i - 1) + Payload(g, bs[i - 1])
  }

  function Available(g: Geometry, bs: Blocks): int {
    AvailableTo(g, bs, |bs|)
  }

  lemma {:induction false} SamePrefix(g: Geometry, bs: Blocks, r: Blocks, i: nat)
    requires i <= |bs| && i <= |r| && forall j :: 0 <= j < i ==> r[j] == bs[j]
    ensures AvailableTo(g, r, i) == AvailableTo(g, bs, i)
  {
    if i > 0 { SamePrefix(g, bs, r, i - 1); }
  }

  predicate SameAt(bs: Blocks, r: Blocks, i: nat, i': nat, j: nat) {
    i + j < |bs| && i' + j < |r| && r[i' + j] == bs[i + j]
  }

  /** If r continues from position i + d as bs does from i, the difference stays the same. */
  lemma {:induction false} SameSuffix(g: Geometry, bs: Blocks, r: Blocks, i: nat, i': nat, m: nat)
    requires i + m <= |bs| && i' + m <= |r|
    requires forall j: nat :: j < m ==> SameAt(bs, r, i, i', j)
    ensures AvailableTo(g, r, i' + m) - AvailableTo(g, r, i') == AvailableTo(g, bs, i + m) - AvailableTo(g, bs, i)
    decreases m
  {
    if m > 0 {
      SameSuffix(g, bs, r, i, i', m - 1);
      assert SameAt(bs, r, i, i', m - 1);
    }
  }

  lemma MarkAvailable(g: Geometry, bs: Blocks, k: nat, used: bool)
    requires k < |bs|
    ensures Available(g, Mark(bs, k, used)) == Available(g, bs) - Payload(g, bs[k]) + Payload(g, bs[k].(used := used))
  {
    var r := Mark(bs, k, used);
    SamePrefix(g, bs, r, k);
    SameSuffix(g, bs, r, k + 1, k + 1, |bs| - k - 1);
  }

  lemma SplitAvailable(g: Geometry, bs: Blocks, k: nat, mid: nat)
    requires k < |bs|
    ensures Available(g, Split(bs, k, mid, true, false))
      == Available(g, bs) - Payload(g, bs[k]) + (bs[k].end - mid - g.oh)
  {
    var r := Split(bs, k, mid, true, false);
    SplitAt(bs, k, mid, true, false);
    SamePrefix(g, bs, r, k);
    SameSuffix(g, bs, r, k + 1, k + 2, |bs| - k - 1);
    assert AvailableTo(g, r, k + 1) == AvailableTo(g, r, k) + Payload(g, r[k]);
  }

  /** Joining two neighbouring free blocks gains the overhead of one header. */
  lemma JoinAvailable(g: Geometry, bs: Blocks, k: nat)
    requires k + 1 < |bs| && !bs[k].used && !bs[k + 1].used && bs[k].end == bs[k + 1].start
    ensures Available(g, Join(bs, k)) == Available(g, bs) + g.oh
  {
    var r := Join(bs, k);
    JoinAt(bs, k);
    SamePrefix(g, bs, r, k);
    SameSuffix(g, bs, r, k + 2, k + 1, |bs| - k - 2);
    assert AvailableTo(g, bs, k + 2) == AvailableTo(g, bs, k) + Payload(g, bs[k]) + Payload(g, bs[k + 1]);
  }

  // ------------------------------------------------------------- freeing a block

  /** OS_FreeMem joins with the predecessor first, then with the successor. */
  function FreeBlocks(bs: Blocks, k: nat): Blocks
    requires k < |bs|
  {
    var b0 := Mark(bs, k, false);
    if k > 0 && !b0[k - 1].used then PlugNext(Join(b0, k - 1), k - 1) else PlugNext(b0, k)
  }

  /** The order of the two joins does not matter. */
  lemma FreeIsRelease(bs: Blocks, k: nat)
    requires k < |bs|
    ensures FreeBlocks(bs, k) == Release(bs, k)
  {
    var b0 := Mark(bs, k, false);
    var x, y := FreeBlocks(bs, k), Release(bs, k);
    if k > 0 && !b0[k - 1].used {
      JoinAt(b0, k - 1);
      if k + 1 < |b0| && !b0[k + 1].used {
        JoinAt(b0, k);
        JoinAt(Join(b0, k - 1), k - 1);
        JoinAt(Join(b0, k), k - 1);
        assert |x| == |y| && forall i :: 0 <= i < |x| ==> x[i] == y[i];
      }
    }
  }

  /** Where the search pointer is after freeing block k. */
  function RoveFree(bs: Blocks, q: nat, k: nat): nat
    requires k < |bs|
  {
    var prev := k > 0 && !bs[k - 1].used;
    var next := k + 1 < |bs| && !bs[k + 1].used;
    if prev then k - 1 else if next then k else q
  }

  lemma FreeAvailable(g: Geometry, bs: Blocks, size: nat, least: nat, k: nat)
    requires Tiled(bs, size, least) && k < |bs| && bs[k].used
    ensures Available(g, FreeBlocks(bs, k)) == Available(g, bs) + (bs[k].end - bs[k].start - g.oh)
      + (if k > 0 && !bs[k - 1].used then g.oh else 0)
      + (if k + 1 < |bs| && !bs[k + 1].used then g.oh else 0)
  {
    var b0 := Mark(bs, k, false);
    MarkAvailable(g, bs, k, false);
    assert BlockOk(bs, size, least, k);
    if k > 0 && !bs[k - 1].used {
      assert BlockOk(bs, size, least, k - 1);
      JoinAvailable(g, b0, k - 1);
      JoinAt(b0, k - 1);
      if k + 1 < |bs| && !bs[k + 1].used { JoinAvailable(g, Join(b0, k - 1), k - 1); }
    } else if k + 1 < |bs| && !bs[k + 1].used {
      JoinAvailable(g, b0, k);
    }
  }

  // ------------------------------------------------------------- the pool in memory

  /** The trailer closes the circle and is never free. */
  predicate TrailerOk(g: Geometry, bs: Blocks, ram: Ram)
    requires |bs| > 0
  {
    g.end in ram && ram[g.end] == Header(0, bs[|bs| - 1].start, true)
  }

  /** The headers in memory spell out the circular list. */
  ghost predicate Sound(g: Geometry, bs: Blocks, ram: Ram) {
    && g.oh > 0 && Tiled(bs, g.end, g.oh + g.min)
    && Linked(bs, ram, g.end) && TrailerOk(g, bs, ram)
  }

  /** What a position holds in memory, and which header follows. */
  lemma SoundAt(g: Geometry, bs: Blocks, ram: Ram, i: nat)
    requires Sound(g, bs, ram) && i <= |bs|
    ensures var at := StartOf(bs, i, g.end);
      && at in ram && ram[at].used == (i == |bs| || bs[i].used)
      && ram[at].next == (if i == |bs| then 0 else StartOf(bs, i + 1, g.end))
      && ram[at].prev == StartOf(bs, if i == 0 then |bs| else i - 1, g.end)
      && ram[at].next in ram && ram[at].prev in ram
      && at <= g.end && (at == g.end <==> i == |bs|)
      && (i < |bs| ==> bs[i].end == ram[at].next && at + g.oh + g.min <= bs[i].end <= g.end)
  {
    assert HeaderOk(bs, ram, g.end, 0);
    if i < |bs| {
      assert HeaderOk(bs, ram, g.end, i);
      NextStart(bs, g.end, g.oh + g.min, i);
      assert BlockOk(bs, g.end, g.oh + g.min, i);
      if i + 1 < |bs| { assert HeaderOk(bs, ram, g.end, i + 1); }
      if i > 0 { assert HeaderOk(bs, ram, g.end, i - 1); }
    } else {
      assert HeaderOk(bs, ram, g.end, i - 1);
    }
  }

  lemma StartsDiffer(g: Geometry, bs: Blocks, i: nat, j: nat)
    requires g.oh > 0 && Tiled(bs, g.end, g.oh + g.min) && i <= |bs| && j <= |bs| && i != j
    ensures StartOf(bs, i, g.end) != StartOf(bs, j, g.end)
  {
    StartsIncrease(bs, g.end, g.oh + g.min, if i < j then i else j, if i < j then j else i);
  }

  lemma SoundMark(g: Geometry, bs: Blocks, ram: Ram, k: nat, used: bool)
    requires Sound(g, bs, ram) && k < |bs|
    ensures bs[k].start in ram && Sound(g, Mark(bs, k, used), SetUsed(ram, bs[k].start, used))
  {
    SoundAt(g, bs, ram, k);
    MarkTiled(bs, g.end, g.oh + g.min, k, used);
    MarkLinked(bs, ram, g.end, g.end, g.oh + g.min, k, used);
  }

  lemma SplitTrailer(g: Geometry, bs: Blocks, ram: Ram, k: nat, mid: nat)
    requires Sound(g, bs, ram) && k < |bs| && bs[k].start < mid < bs[k].end
    ensures bs[k].end in ram
    ensures var ram2 := ram[mid := Header(bs[k].end, bs[k].start, false)]
                           [bs[k].start := Header(mid, PrevStart(bs, k, g.end), true)];
      TrailerOk(g, Split(bs, k, mid, true, false), SetPrev(ram2, bs[k].end, mid))
  {
    SoundAt(g, bs, ram, k);
    SoundAt(g, bs, ram, k + 1);
    SplitAt(bs, k, mid, true, false);
    var r := Split(bs, k, mid, true, false);
    assert r[|r| - 1].start == if k + 1 == |bs| then mid else bs[|bs| - 1].start;
  }

  lemma JoinTrailer(g: Geometry, bs: Blocks, ram: Ram, k: nat)
    requires Sound(g, bs, ram) && k + 1 < |bs|
    ensures bs[k].start in ram && bs[k + 1].end in ram
    ensures k < |Join(bs, k)| && Join(bs, k)[k].start == bs[k].start
    ensures TrailerOk(g, Join(bs, k), SetPrev(SetNext(ram, bs[k].start, bs[k + 1].end), bs[k + 1].end, bs[k].start))
  {
    SoundAt(g, bs, ram, k);
    SoundAt(g, bs, ram, k + 1);
    SoundAt(g, bs, ram, k + 2);
    JoinAt(bs, k);
    var r := Join(bs, k);
    assert r[|r| - 1].start == if k + 2 == |bs| then bs[k].start else bs[|bs| - 1].start;
  }

  lemma SoundSplit(g: Geometry, bs: Blocks, ram: Ram, k: nat, mid: nat)
    requires Sound(g, bs, ram) && k < |bs|
    requires bs[k].start + g.oh + g.min <= mid && mid + g.oh + g.min <= bs[k].end
    ensures bs[k].end in ram
    ensures var ram2 := ram[mid := Header(bs[k].end, bs[k].start, false)]
                           [bs[k].start := Header(mid, PrevStart(bs, k, g.end), true)];
      Sound(g, Split(bs, k, mid, true, false), SetPrev(ram2, bs[k].end, mid))
  {
    SoundAt(g, bs, ram, k);
    SplitTrailer(g, bs, ram, k, mid);
    SplitTiled(bs, g.end, g.oh + g.min, k, mid, true, false);
    SplitLinked(bs, ram, g.end, g.end, g.oh + g.min, k, mid, true, false);
  }

  lemma SoundJoin(g: Geometry, bs: Blocks, ram: Ram, k: nat)
    requires Sound(g, bs, ram) && k + 1 < |bs|
    ensures bs[k].start in ram && bs[k + 1].end in ram
    ensures Sound(g, Join(bs, k), SetPrev(SetNext(ram, bs[k].start, bs[k + 1].end), bs[k + 1].end, bs[k].start))
    ensures k < |Join(bs, k)| && Join(bs, k)[k].start == bs[k].start
  {
    SoundAt(g, bs, ram, k);
    SoundAt(g, bs, ram, k + 1);
    JoinTrailer(g, bs, ram, k);
    JoinTiled(bs, g.end, g.oh + g.min, k);
    JoinLinked(bs, ram, g.end, g.end, g.oh + g.min, k);
  }

  function ShapeOf(g: Geometry): Shape {
    Shape(g.end, g.oh + g.min, g.oh)
  }

  lemma TakeGood(g: Geometry, bs: Blocks, p: nat, n: nat)
    requires Sane(g) && Good(bs, g.end, g.oh + g.min) && p <= |bs| && FreeSize(g, bs, p) >= n && n >= g.min
    ensures Good(Take(g, bs, p, n), g.end, g.oh + g.min)
  {
    if p < |bs| {
      if FreeSize(g, bs, p) >= n + g.oh + g.min {
        assert RightOk(bs, p);
        SplitGood(bs, g.end, g.oh + g.min, p, bs[p].start + g.oh + n);
      } else {
        MarkUsedGood(bs, g.end, g.oh + g.min, p);
      }
    }
  }

  /** A search pointer that is not on the taken block still points to the same header. */
  lemma TakeMoves(g: Geometry, bs: Blocks, q: nat, p: nat, n: nat)
    requires q <= |bs| && p <= |bs| && q != p
    ensures var r := Take(g, bs, p, n);
      RoveTake(g, bs, q, p, n) <= |r| && StartOf(r, RoveTake(g, bs, q, p, n), g.end) == StartOf(bs, q, g.end)
  {
    if p < |bs| { SplitAt(bs, p, bs[p].start + g.oh + n, true, false); }
  }

  /** The search has gone from q to i, perhaps around the end, without finding n bytes. */
  predicate Passed(g: Geometry, bs: Blocks, q: nat, n: nat, i: nat, wrapped: bool)
    requires q <= |bs| && i <= |bs|
  {
    if wrapped then FitFrom(g, bs, q, n) == |bs| + 1 && FitFrom(g, bs, 0, n) >= i
    else FitFrom(g, bs, q, n) >= i
  }

  lemma PassedStep(g: Geometry, bs: Blocks, q: nat, n: nat, i: nat, wrapped: bool)
    requires q <= |bs| && i <= |bs| && Passed(g, bs, q, n, i, wrapped) && FreeSize(g, bs, i) < n
    requires if wrapped then i < q else q <= i
    ensures i < |bs| ==> Passed(g, bs, q, n, i + 1, wrapped)
    ensures i == |bs| ==> Passed(g, bs, q, n, 0, true)
  {
  }

  lemma PassedAll(g: Geometry, bs: Blocks, q: nat, n: nat, i: nat, wrapped: bool)
    requires q <= |bs| && i <= |bs| && Passed(g, bs, q, n, i, wrapped)
    ensures FreeSize(g, bs, i) >= n && (if wrapped then i < q else q <= i) ==> NextFit(g, bs, q, n) == i
    ensures wrapped && i == q ==> NextFit(g, bs, q, n) == |bs| + 1
  {
  }

  class Pool {
    const g: Geometry
    var ram: Ram           // the DM_HEADERs, by index
    var search: nat        // dm_search_ptr
    var available: int     // dm_available
    ghost var bs: Blocks
    ghost var q: nat       // position of the search pointer

    ghost predicate Core()
      reads this
    {
      && Sound(g, bs, ram) && q <= |bs| && search == StartOf(bs, q, g.end)
      && available == Available(g, bs)
    }

    ghost predicate Valid()
      reads this
    {
      Sane(g) && Core() && Good(bs, g.end, g.oh + g.min)
    }

    /** OS_Create_Memory_Pool, for a pool with room for the two headers and one minimal block. */
    constructor (poolSize: nat, oh: nat, minAllocation: nat)
      requires oh > 0 && poolSize / 4 * 4 >= 2 * oh + AlignUp(minAllocation)
      ensures Valid() && g == Geometry(poolSize / 4 * 4 - oh, oh, AlignUp(minAllocation))
      ensures bs == [Block(0, g.end, false)] && q == 0
      ensures available == poolSize / 4 * 4 - 2 * oh
    {
      var size := poolSize / 4 * 4;
      g := Geometry(size - oh, oh, AlignUp(minAllocation));
      available := size - 2 * oh;
      search := 0;
      ram := map[0 := Header(size - oh, size - oh, false), size - oh := Header(0, 0, true)];
      bs, q := [Block(0, size - oh, false)], 0;
      new;
      assert HeaderOk(bs, ram, g.end, 0);
      assert BlockOk(bs, g.end, g.oh + g.min, 0);
      assert AvailableTo(g, bs, 1) == AvailableTo(g, bs, 0) + Payload(g, bs[0]);
    }

    /** OS_GetMem: the address handed out, or None for OS_ERR_MEM_FULL. */
    method GetMem(size: nat) returns (p: Option<nat>)
      requires Valid()
      modifies this
      ensures Valid()
      ensures var n := Adjusted(g, size);
        var f := NextFit(g, old(bs), old(q), n);
        if f > |old(bs)| then p == None && bs == old(bs) && q == old(q)
        else && p == Some(StartOf(old(bs), f, g.end) + g.oh)
             && bs == Take(g, old(bs), f, n) && q == RoveTake(g, old(bs), old(q), f, n)
    {
      var n := size;
      if size < g.min {
        n := g.min;
      } else {
        n := AlignUp(size);
      }
      var memory, freeSize, f := Search(n);
      if freeSize >= n {
        TakeGood(g, bs, f, n);
        Hand(memory, freeSize, n, f);
        p := Some(memory + g.oh);
      } else {
        p := None;
      }
    }

    /** Go around the circle until a block has n free bytes or the search pointer is back. */
    method Search(n: nat) returns (memory: nat, freeSize: int, ghost f: nat)
      requires Sound(g, bs, ram) && q <= |bs| && search == StartOf(bs, q, g.end)
      ensures f == NextFit(g, bs, q, n)
      ensures freeSize >= n <==> f <= |bs|
      ensures f <= |bs| ==> memory == StartOf(bs, f, g.end) && freeSize == FreeSize(g, bs, f)
    {
      memory := search;
      ghost var i: nat := q;
      ghost var wrapped := false;
      var done := false;
      freeSize := 0;
      while !done
        invariant i <= |bs| && memory == StartOf(bs, i, g.end)
        invariant Passed(g, bs, q, n, i, wrapped)
        invariant !done || freeSize >= n ==> if wrapped then i < q else q <= i
        invariant done && freeSize < n ==> wrapped && i == q
        invariant done && freeSize >= n ==> freeSize == FreeSize(g, bs, i)
        decreases !done, if wrapped then 0 else 1, |bs| - i
      {
        freeSize := FreeBytes(memory, i);
        if freeSize < n {
          memory := NextHeader(memory, i);
          PassedStep(g, bs, q, n, i, wrapped);
          if i == |bs| {
            i, wrapped := 0, true;
          } else {
            i := i + 1;
          }
        }
        if i != q { StartsDiffer(g, bs, i, q); }
        done := !(freeSize < n && memory != search);
      }
      PassedAll(g, bs, q, n, i, wrapped);
      f := if freeSize >= n then i else |bs| + 1;
    }

    method FreeBytes(memory: nat, ghost i: nat) returns (freeSize: int)
      requires Sound(g, bs, ram) && i <= |bs| && memory == StartOf(bs, i, g.end)
      ensures freeSize == FreeSize(g, bs, i)
    {
      SoundAt(g, bs, ram, i);
      if !ram[memory].used {
        freeSize := ram[memory].next - memory - g.oh;
      } else {
        freeSize := 0;
      }
    }

    method NextHeader(memory: nat, ghost i: nat) returns (next: nat)
      requires Sound(g, bs, ram) && i <= |bs| && memory == StartOf(bs, i, g.end)
      ensures next == StartOf(bs, if i == |bs| then 0 else i + 1, g.end)
    {
      SoundAt(g, bs, ram, i);
      next := ram[memory].next;
    }

    /** The part of OS_GetMem that follows a successful search. */
    method Hand(memory: nat, freeSize: int, n: nat, ghost f: nat)
      requires Core() && f <= |bs| && memory == StartOf(bs, f, g.end) && freeSize == FreeSize(g, bs, f)
      requires freeSize >= n && n >= g.min
      modifies this
      ensures Core() && bs == Take(g, old(bs), f, n) && q == RoveTake(g, old(bs), old(q), f, n)
    {
      SoundAt(g, bs, ram, f);
      if f != q {
        TakeMoves(g, bs, q, f, n);
        StartsDiffer(g, bs, f, q);
      }
      ghost var to := RoveTake(g, bs, q, f, n);
      if freeSize >= n + g.oh + g.min {
        SplitAvailable(g, bs, f, memory + g.oh + n);
        SplitHeaders(memory, memory + n + g.oh, f);
        available := available - n - g.oh;
      } else {
        MarkUsed(memory, f);
        available := available - freeSize;
      }
      if search == memory {
        SoundAt(g, bs, ram, f);
        search := ram[memory].next;
      }
      q := to;
    }

    /** Create a header at `at2`, behind the block at `at`, which becomes used. */
    method SplitHeaders(at: nat, at2: nat, ghost k: nat)
      requires Sound(g, bs, ram) && k < |bs| && bs[k].start == at
      requires at + g.oh + g.min <= at2 && at2 + g.oh + g.min <= bs[k].end
      modifies this`ram, this`bs
      ensures Sound(g, bs, ram) && bs == Split(old(bs), k, at2, true, false)
      ensures StartOf(bs, k, g.end) == at
    {
      SoundAt(g, bs, ram, k);
      SoundSplit(g, bs, ram, k, at2);
      SplitAt(bs, k, at2, true, false);
      var next := ram[at].next;
      ghost var goal := SetPrev(ram[at2 := Header(next, at, false)][at := Header(at2, ram[at].prev, true)], next, at2);
      ram := ram[at2 := Header(next, at, false)];
      ram := SetPrev(ram, next, at2);
      ram := SetNext(ram, at, at2);
      ram := SetUsed(ram, at, true);
      assert ram == goal;
      bs := Split(bs, k, at2, true, false);
    }

    /** Mark the header at position k used; the trailer and used blocks are so already. */
    method MarkUsed(at: nat, ghost k: nat)
      requires Sound(g, bs, ram) && k <= |bs| && at == StartOf(bs, k, g.end)
      modifies this`ram, this`bs
      ensures Sound(g, bs, ram) && StartOf(bs, k, g.end) == at
      ensures bs == if k < |old(bs)| then Mark(old(bs), k, true) else old(bs)
      ensures Available(g, bs) == Available(g, old(bs)) - FreeSize(g, old(bs), k)
    {
      SoundAt(g, bs, ram, k);
      if k < |bs| {
        SoundMark(g, bs, ram, k, true);
        MarkAvailable(g, bs, k, true);
        bs := Mark(bs, k, true);
      } else {
        assert ram == SetUsed(ram, at, true);
      }
      ram := SetUsed(ram, at, true);
    }

    /** OS_FreeMem of what OS_GetMem handed out and nobody has freed since. */
    method FreeMem(memory: nat)
      requires Valid()
      requires IsData(ShapeOf(g), bs, memory)
      modifies this
      ensures Valid() && bs == Release(old(bs), Find(old(bs), memory - g.oh))
      ensures q == RoveFree(old(bs), old(q), Find(old(bs), memory - g.oh))
    {
      ghost var k := Find(bs, memory - g.oh);
      ReleaseGood(bs, g.end, g.oh + g.min, k);
      FreeIsRelease(bs, k);
      Unuse(memory - g.oh, k);
    }

    method Unuse(at: nat, ghost k: nat)
      requires Core() && k < |bs| && bs[k].start == at && bs[k].used
      modifies this
      ensures Core() && bs == FreeBlocks(old(bs), k) && q == RoveFree(old(bs), old(q), k)
    {
      MarkFree(at, k);
      SoundAt(g, bs, ram, k);
      if k > 0 { SoundAt(g, bs, ram, k - 1); }
      if !ram[ram[at].prev].used {
        var header := ram[at].prev;
        JoinAndPoint(header, at, k - 1);
        PlugFollowing(header, k - 1);
      } else {
        PlugFollowing(at, k);
      }
    }

    method MarkFree(at: nat, ghost k: nat)
      requires Core() && k < |bs| && bs[k].start == at && bs[k].used
      modifies this`ram, this`bs, this`available
      ensures Core() && bs == Mark(old(bs), k, false)
    {
      SoundAt(g, bs, ram, k);
      SoundMark(g, bs, ram, k, false);
      MarkAvailable(g, bs, k, false);
      ram := SetUsed(ram, at, false);
      bs := Mark(bs, k, false);
      available := available + (ram[at].next - at) - g.oh;
    }

    /** Merge two free neighbours and move the search pointer to the result. */
    method JoinAndPoint(at: nat, gone: nat, ghost k: nat)
      requires Core() && k + 1 < |bs| && bs[k].start == at && bs[k + 1].start == gone
      requires !bs[k].used && !bs[k + 1].used
      modifies this
      ensures Core() && bs == Join(old(bs), k) && q == k
      ensures k < |bs| && bs[k] == Block(at, old(bs)[k + 1].end, false)
    {
      available := available + g.oh;
      JoinHeaders(at, gone, k);
      search := at;
      q := k;
    }

    /** Merge the free block at `header` with its successor if that is free. */
    method PlugFollowing(header: nat, ghost k: nat)
      requires Core() && k < |bs| && bs[k].start == header && !bs[k].used
      modifies this
      ensures Core() && bs == PlugNext(old(bs), k)
      ensures q == if k + 1 < |old(bs)| && !old(bs)[k + 1].used then k else old(q)
    {
      SoundAt(g, bs, ram, k);
      SoundAt(g, bs, ram, k + 1);
      var next := ram[header].next;
      if !ram[next].used {
        JoinAndPoint(header, next, k);
      }
    }

    /** The two header writes that make the block at `at` swallow the one at `gone`. */
    method JoinHeaders(at: nat, gone: nat, ghost k: nat)
      requires Sound(g, bs, ram) && k + 1 < |bs| && bs[k].start == at && bs[k + 1].start == gone
      requires !bs[k].used && !bs[k + 1].used
      modifies this`ram, this`bs
      ensures Sound(g, bs, ram) && bs == Join(old(bs), k)
      ensures k < |bs| && bs[k] == Block(at, old(bs)[k + 1].end, false)
      ensures Available(g, bs) == Available(g, old(bs)) + g.oh
    {
      SoundAt(g, bs, ram, k);
      SoundAt(g, bs, ram, k + 1);
      SoundJoin(g, bs, ram, k);
      JoinAvailable(g, bs, k);
      JoinAt(bs, k);
      var next := ram[gone].next;
      ram := SetNext(ram, at, next);
      ram := SetPrev(ram, next, at);
      bs := Join(bs, k);
    }
  }

  // ------------------------------------------------------ what the clients see

  datatype Op = GetOp(size: nat) | FreeOp(ptr: nat)

  datatype Client = Client(bs: Blocks, q: nat, live: Live)

  /** The result of OS_GetMem. */
  function GetResult(g: Geometry, bs: Blocks, q: nat, size: nat): Option<nat>
    requires q <= |bs|
  {
    var f := NextFit(g, bs, q, Adjusted(g, size));
    if f > |bs| then None else Some(StartOf(bs, f, g.end) + g.oh)
  }

  /** A client frees only what it has been given. */
  predicate Legal(cl: Client, op: Op) {
    op.FreeOp? ==> op.ptr in cl.live
  }

  ghost predicate ClientInv(g: Geometry, cl: Client) {
    Sane(g) && Held(ShapeOf(g), cl.bs, cl.live) && cl.q <= |cl.bs|
  }

  /** The state after an operation.  What a request gets is the client's if it was free; it always is,
      except after some requests for nothing. */
  ghost function Next(g: Geometry, cl: Client, op: Op): Client
    requires ClientInv(g, cl) && Legal(cl, op)
  {
    match op
    case GetOp(size) =>
      var n := Adjusted(g, size);
      var f := NextFit(g, cl.bs, cl.q, n);
      if f > |cl.bs| then cl
      else
        var live := if f < |cl.bs| && !cl.bs[f].used then cl.live[cl.bs[f].start + g.oh := size] else cl.live;
        Client(Take(g, cl.bs, f, n), RoveTake(g, cl.bs, cl.q, f, n), live)
    case FreeOp(ptr) =>
      var k := Holder(ShapeOf(g), cl.bs, cl.live, ptr);
      Client(Release(cl.bs, k), RoveFree(cl.bs, cl.q, k), cl.live - {ptr})
  }

  lemma TakeUsed(g: Geometry, bs: Blocks, p: nat, n: nat, b: Block)
    requires Sane(g) && Good(bs, g.end, g.oh + g.min) && p < |bs| && !bs[p].used && b.used
    requires FreeSize(g, bs, p) >= n
    ensures var r := Take(g, bs, p, n);
      p < |r| && (b in r <==> b in bs || b == r[p])
      && r[p].start == bs[p].start && r[p].used && r[p].end >= r[p].start + g.oh + n
  {
    SplitAt(bs, p, bs[p].start + g.oh + n, true, false);
    SplitIn(bs, g.end, g.oh + g.min, p, bs[p].start + g.oh + n, true, false, b);
    MarkIn(bs, g.end, g.oh + g.min, p, true, b);
  }

  lemma GetKeeps(g: Geometry, cl: Client, size: nat)
    requires ClientInv(g, cl) && Legal(cl, GetOp(size))
    ensures ClientInv(g, Next(g, cl, GetOp(size)))
  {
    var n := Adjusted(g, size);
    var f := NextFit(g, cl.bs, cl.q, n);
    if f == |cl.bs| || (f < |cl.bs| && cl.bs[f].used) {
      assert Take(g, cl.bs, f, n) == cl.bs;
    } else if f < |cl.bs| {
      var r := Take(g, cl.bs, f, n);
      TakeGood(g, cl.bs, f, n);
      TakeUsed(g, cl.bs, f, n, Block(0, 0, true));
      forall b: Block | b.used ensures b in r <==> b in cl.bs || b == r[f] {
        TakeUsed(g, cl.bs, f, n, b);
      }
      TakeKeeps(ShapeOf(g), cl.bs, cl.live, r, f, size);
      if f != cl.q { TakeMoves(g, cl.bs, cl.q, f, n); }
    }
  }

  lemma FreeKeeps(g: Geometry, cl: Client, ptr: nat)
    requires ClientInv(g, cl) && ptr in cl.live
    ensures ClientInv(g, Next(g, cl, FreeOp(ptr)))
  {
    var k := Holder(ShapeOf(g), cl.bs, cl.live, ptr);
    ReleaseKeeps(ShapeOf(g), cl.bs, cl.live, ptr);
    RoveStays(cl.bs, cl.q, k);
  }

  /** The search pointer never points past the end of the shortened list. */
  lemma RoveStays(bs: Blocks, q: nat, k: nat)
    requires k < |bs| && q <= |bs|
    ensures RoveFree(bs, q, k) <= |Release(bs, k)|
  {
    FreeIsRelease(bs, k);
  }

  ghost predicate IsStep(g: Geometry, run: seq<Client>, ops: seq<Op>, i: nat)
    requires i < |ops| < |run|
  {
    Legal(run[i], ops[i]) && (ClientInv(g, run[i]) ==> run[i + 1] == Next(g, run[i], ops[i]))
  }

  /** A run: the states a sequence of legal operations goes through from the new pool. */
  ghost predicate IsRun(g: Geometry, run: seq<Client>, ops: seq<Op>) {
    && |run| == |ops| + 1 && run[0] == Client([Block(0, g.end, false)], 0, map[])
    && forall i :: 0 <= i < |ops| ==> IsStep(g, run, ops, i)
  }

  lemma {:induction false} RunKeeps(g: Geometry, run: seq<Client>, ops: seq<Op>, i: nat)
    requires Sane(g) && IsRun(g, run, ops) && i < |run|
    ensures ClientInv(g, run[i])
  {
    if i == 0 {
      StartKeeps(ShapeOf(g));
    } else {
      RunKeeps(g, run, ops, i - 1);
      assert IsStep(g, run, ops, i - 1);
      match ops[i - 1]
      case GetOp(size) => GetKeeps(g, run[i - 1], size);
      case FreeOp(ptr) => FreeKeeps(g, run[i - 1], ptr);
    }
  }

  /** In every run, two live allocations never overlap, nor does one overlap a header. */
  lemma LiveDisjoint(g: Geometry, run: seq<Client>, ops: seq<Op>, i: nat, p: nat, q: nat)
    requires Sane(g) && IsRun(g, run, ops) && i < |run|
    requires p in run[i].live && q in run[i].live && p < q
    ensures g.oh <= p && p + run[i].live[p] + g.oh <= q && q + run[i].live[q] <= g.end
  {
    RunKeeps(g, run, ops, i);
    HeldDisjoint(ShapeOf(g), run[i].bs, run[i].live, p, q);
  }

  /** In every run, OS_GetMem reports full exactly when no free block is big enough; a request that
      comes to nothing is never refused. */
  lemma FullExactly(g: Geometry, run: seq<Client>, ops: seq<Op>, i: nat, size: nat)
    requires Sane(g) && IsRun(g, run, ops) && i < |run|
    ensures ClientInv(g, run[i])
    ensures GetResult(g, run[i].bs, run[i].q, size) == None <==>
      Adjusted(g, size) > 0 && forall b :: b in run[i].bs && !b.used ==> b.end - b.start < g.oh + Adjusted(g, size)
  {
    RunKeeps(g, run, ops, i);
    var bs, q, n := run[i].bs, run[i].q, Adjusted(g, size);
    var f := NextFit(g, bs, q, n);
    if n == 0 {
      if q < |bs| { assert BlockOk(bs, g.end, g.oh + g.min, q); }
    } else if f <= |bs| {
      assert bs[f] in bs;
    } else {
      forall b | b in bs && !b.used ensures b.end - b.start < g.oh + n {
        var j :| 0 <= j < |bs| && bs[j] == b;
        assert FreeSize(g, bs, j) < n;
      }
    }
  }

  // -------------------------------------------------- how much an allocation takes

  /** OS_GetMem carves what it hands out from the beginning of a free block, and takes less than another
      header and minimal block more than it was asked for. */
  lemma GetCarves(g: Geometry, cl: Client, size: nat) returns (b: Block, u: Block)
    requires ClientInv(g, cl) && Adjusted(g, size) > 0 && GetResult(g, cl.bs, cl.q, size).Some?
    ensures GetResult(g, cl.bs, cl.q, size) == Some(b.start + g.oh)
    ensures Carved(cl.bs, Next(g, cl, GetOp(size)).bs, b, u, g.oh + Adjusted(g, size), g.oh + g.min)
  {
    var n := Adjusted(g, size);
    var k := NextFit(g, cl.bs, cl.q, n);
    b := cl.bs[k];
    u := TakeCarves(g, cl.bs, k, n);
  }

  lemma TakeCarves(g: Geometry, bs: Blocks, k: nat, n: nat) returns (u: Block)
    requires Sane(g) && Good(bs, g.end, g.oh + g.min) && k < |bs| && !bs[k].used && FreeSize(g, bs, k) >= n
    ensures Carved(bs, Take(g, bs, k, n), bs[k], u, g.oh + n, g.oh + g.min)
  {
    if FreeSize(g, bs, k) >= n + g.oh + g.min {
      u := Block(bs[k].start, bs[k].start + g.oh + n, true);
      CarvedBySplit(bs, g.end, g.oh + g.min, k, g.oh + n, g.oh + g.min);
    } else {
      u := bs[k].(used := true);
      CarvedWhole(bs, g.end, g.oh + g.min, k, g.oh + n, g.oh + g.min);
    }
  }

  /** A search that started at the block that is handed out goes on behind it the next time, at the start
      of the pool if that is its end; else it starts where it did. */
  lemma SearchGoesOn(g: Geometry, cl: Client, size: nat)
    requires ClientInv(g, cl) && Adjusted(g, size) > 0 && GetResult(g, cl.bs, cl.q, size).Some?
    ensures var before, cl' := StartOf(cl.bs, cl.q, g.end), Next(g, cl, GetOp(size));
      var p := GetResult(g, cl.bs, cl.q, size).value;
      && cl'.q <= |cl'.bs|
      && if before + g.oh != p then StartOf(cl'.bs, cl'.q, g.end) == before
         else exists u :: u in cl'.bs && u.used && u.start == before && StartOf(cl'.bs, cl'.q, g.end) == u.end
  {
    var n := Adjusted(g, size);
    var f := NextFit(g, cl.bs, cl.q, n);
    if f != cl.q {
      TakeMoves(g, cl.bs, cl.q, f, n);
      StartsDiffer(g, cl.bs, f, cl.q);
    } else {
      TakeNext(g, cl.bs, f, n);
    }
  }

  lemma TakeNext(g: Geometry, bs: Blocks, f: nat, n: nat)
    requires Sane(g) && Good(bs, g.end, g.oh + g.min) && f < |bs| && !bs[f].used && FreeSize(g, bs, f) >= n && n >= g.min
    ensures var r := Take(g, bs, f, n);
      f + 1 <= |r| && r[f] in r && r[f].used && r[f].start == bs[f].start && StartOf(r, f + 1, g.end) == r[f].end
  {
    TakeGood(g, bs, f, n);
    SplitAt(bs, f, bs[f].start + g.oh + n, true, false);
    NextStart(Take(g, bs, f, n), g.end, g.oh + g.min, f);
  }

  /** When the clients hold nothing any more, the pool is one free block again. */
  lemma NothingLeaks(g: Geometry, run: seq<Client>, ops: seq<Op>, i: nat)
    requires Sane(g) && IsRun(g, run, ops) && i < |run| && run[i].live == map[]
    ensures run[i].bs == [Block(0, g.end, false)]
  {
    RunKeeps(g, run, ops, i);
    NothingHeld(ShapeOf(g), run[i].bs, run[i].live);
  }

  // ------------------------------------------------------------- a request for nothing

  /**
    A request whose adjusted size is 0 (possible only in a pool without a minimum
    allocation) is answered from wherever the search pointer stands.  It is harmless
    if and only if that is a free block.
  */
  lemma ZeroRequest(g: Geometry, bs: Blocks, q: nat, size: nat)
    requires q <= |bs| && Adjusted(g, size) == 0 && g.oh > 0 && Good(bs, g.end, g.oh + g.min)
    ensures GetResult(g, bs, q, size) == Some(StartOf(bs, q, g.end) + g.oh)
    ensures (q < |bs| && !bs[q].used) <==>
      (forall b :: b in bs && b.used ==> GetResult(g, bs, q, size) != Some(b.start + g.oh))
      && GetResult(g, bs, q, size) != Some(g.end + g.oh)
  {
    if q < |bs| {
      assert BlockOk(bs, g.end, g.oh + g.min, q);
      assert bs[q] in bs;
      StartsIncrease(bs, g.end, g.oh + g.min, q, |bs|);
      forall b | b in bs && b.used && !bs[q].used ensures b.start != bs[q].start {
        var j :| 0 <= j < |bs| && bs[j] == b;
        DifferentStarts(bs, g.end, g.oh + g.min, j, q);
      }
    }
  }

  /** What OS_GetMem hands out, if anything, was a free block and belongs to nobody. */
  ghost predicate GivesNew(g: Geometry, cl: Client, size: nat) {
    && cl.q <= |cl.bs|
    && match GetResult(g, cl.bs, cl.q, size)
       case None => true
       case Some(p) => p !in cl.live && exists b :: b in cl.bs && !b.used && p == b.start + g.oh
  }

  ghost predicate AlwaysGivesNew(g: Geometry, size: nat) {
    forall run, ops, i: nat :: IsRun(g, run, ops) && i < |run| ==> GivesNew(g, run[i], size)
  }

  /** A request that does not come to nothing is answered with a block that was free. */
  lemma GuardedRequest(g: Geometry, cl: Client, size: nat)
    requires ClientInv(g, cl) && Adjusted(g, size) > 0
    ensures GivesNew(g, cl, size)
  {
    var f := NextFit(g, cl.bs, cl.q, Adjusted(g, size));
    if f <= |cl.bs| {
      var p := cl.bs[f].start + g.oh;
      assert cl.bs[f] in cl.bs;
      if p in cl.live {
        var b := HeldBlock(ShapeOf(g), cl.bs, cl.live, p);
        SameStart(ShapeOf(g), cl.bs, b, cl.bs[f]);
      }
    }
  }

  /** Headers, minimum and pool are whole words, as OS_Create_Memory_Pool makes them. */
  predicate Words(g: Geometry) {
    g.end % 4 == 0 && g.oh % 4 == 0 && g.min % 4 == 0
  }

  /** In every pool without a minimum: once all of it has been requested, the first request for nothing
      gets an address behind the trailer, and the second one the memory that is in use. */
  lemma ZeroRequestHandsOutLiveMemory(g: Geometry) returns (run: seq<Client>, ops: seq<Op>)
    requires Sane(g) && Words(g) && g.min == 0
    ensures ops == [GetOp(g.end - g.oh), GetOp(0)] && IsRun(g, run, ops)
    ensures run[1].q <= |run[1].bs| && GetResult(g, run[1].bs, run[1].q, 0) == Some(g.end + g.oh)
    ensures run[2].q <= |run[2].bs| && GetResult(g, run[2].bs, run[2].q, 0) == Some(g.oh)
    ensures run[2].live == map[g.oh := g.end - g.oh]
  {
    ops := [GetOp(g.end - g.oh), GetOp(0)];
    var used := [Block(0, g.end, true)];
    var live := map[g.oh := g.end - g.oh];
    run := [Client([Block(0, g.end, false)], 0, map[]), Client(used, 1, live), Client(used, 0, live)];
    assert Adjusted(g, g.end - g.oh) == g.end - g.oh && Adjusted(g, 0) == 0;
    assert FitFrom(g, run[0].bs, 0, g.end - g.oh) == 0;
    assert Mark(run[0].bs, 0, true) == used;
    assert IsStep(g, run, ops, 0);
    assert FitFrom(g, used, 1, 0) == 1;
    assert IsStep(g, run, ops, 1);
  }

  /** So requests of a size always get memory of their own, in every run, exactly if the size is not 0
      or the pool has a minimum. */
  lemma OwnMemoryExactly(g: Geometry, size: nat)
    requires Sane(g) && Words(g)
    ensures AlwaysGivesNew(g, size) <==> size > 0 || g.min > 0
  {
    if size > 0 || g.min > 0 {
      forall run, ops, i: nat | IsRun(g, run, ops) && i < |run| ensures GivesNew(g, run[i], size) {
        RunKeeps(g, run, ops, i);
        GuardedRequest(g, run[i], size);
      }
    } else {
      var run, ops := ZeroRequestHandsOutLiveMemory(g);
      assert !GivesNew(g, run[2], size);
    }
  }
}
