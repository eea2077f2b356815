/**
  A range of memory cut into blocks, as both allocators of the repository keep it:
  every block begins with a header that holds the index of the next header, the
  index of the previous header, and whether the block is used.

  The list of blocks is the specification; `Linked` says that the headers stored in
  memory spell it out.  The three ways of changing it are marking a block, splitting
  a block, and joining a block with its successor.
*/
module Tiling {

  datatype Block = Block(start: nat, end: nat, used: bool)

  datatype Header = Header(next: nat, prev: nat, used: bool)

  type Blocks = seq<Block>
  type Ram = map<nat, Header>

  // ---------------------------------------------------------------- predicates

  /** Block i is at least `least` long and reaches to the next block, or to the end. */
  predicate BlockOk(bs: Blocks, size: nat, least: nat, i: nat)
    requires i < |bs|
  {
    bs[i].start + least <= bs[i].end && bs[i].end == StartOf(bs, i + 1, size)
  }

  /** Index of the header at position k, or of the end of the range. */
  function StartOf(bs: Blocks, k: nat, size: nat): nat {
    if k < |bs| then bs[k].start else size
  }

  /** The blocks cover 0..size without gap or overlap, each at least `least` long. */
  ghost predicate Tiled(bs: Blocks, size: nat, least: nat) {
    |bs| > 0 && bs[0].start == 0 && forall i :: 0 <= i < |bs| ==> BlockOk(bs, size, least, i)
  }

  /** Of block i and its successor, one is used. */
  predicate RightOk(bs: Blocks, i: nat) {
    i + 1 < |bs| ==> bs[i].used || bs[i + 1].used
  }

  ghost predicate NoFreeNeighbours(bs: Blocks) {
    forall i: nat :: RightOk(bs, i)
  }

  ghost predicate Aligned(bs: Blocks) {
    forall i :: 0 <= i < |bs| ==> bs[i].start % 4 == 0 && bs[i].end % 4 == 0
  }

  /** What both allocators keep. */
  ghost predicate Good(bs: Blocks, size: nat, least: nat) {
    Tiled(bs, size, least) && NoFreeNeighbours(bs)
  }

  function PrevStart(bs: Blocks, i: nat, firstPrev: nat): nat
    requires i <= |bs|
  {
    if i == 0 then firstPrev else bs[i - 1].start
  }

  /** The header of block i in memory is the one the list of blocks asks for. */
  predicate HeaderOk(bs: Blocks, ram: Ram, firstPrev: nat, i: nat)
    requires i < |bs|
  {
    && bs[i].start in ram
    && ram[bs[i].start] == Header(bs[i].end, PrevStart(bs, i, firstPrev), bs[i].used)
  }

  /** The headers in memory spell out `bs`; the first block points back to `firstPrev`. */
  ghost predicate Linked(bs: Blocks, ram: Ram, firstPrev: nat) {
    forall i :: 0 <= i < |bs| ==> HeaderOk(bs, ram, firstPrev, i)
  }

  function AlignUp(n: nat): (r: nat)
    ensures r % 4 == 0 && n <= r < n + 4
  {
    (n + 3) / 4 * 4
  }

  /** The block whose header is at `start`. */
  function Find(bs: Blocks, start: nat): (k: nat)
    ensures k <= |bs|
    ensures k < |bs| ==> bs[k].start == start
    ensures forall i :: 0 <= i < k ==> bs[i].start != start
  {
    if bs == [] then 0 else if bs[0].start == start then 0 else 1 + Find(bs[1..], start)
  }

  lemma {:induction false} StartsIncrease(bs: Blocks, size: nat, least: nat, i: nat, j: nat)
    requires Tiled(bs, size, least) && i < j <= |bs|
    ensures bs[i].end <= StartOf(bs, j, size) && bs[i].start + least <= bs[i].end
    decreases j - i
  {
    assert BlockOk(bs, size, least, i);
    if i + 1 < j {
      StartsIncrease(bs, size, least, i + 1, j);
      assert BlockOk(bs, size, least, i + 1);
    }
  }

  /** Different blocks occupy disjoint ranges; in particular headers are never shared. */
  lemma BlocksDisjoint(bs: Blocks, size: nat, least: nat, i: nat, j: nat)
    requires Tiled(bs, size, least) && i < j < |bs|
    ensures bs[i].start < bs[j].start || least == 0
    ensures bs[i].start + least <= bs[i].end <= bs[j].start && bs[j].start + least <= bs[j].end <= size
  {
    StartsIncrease(bs, size, least, i, j);
    StartsIncrease(bs, size, least, j, |bs|);
    assert BlockOk(bs, size, least, i);
  }

  /** The next header begins where the block ends; the last block ends at the end. */
  lemma NextStart(bs: Blocks, size: nat, least: nat, k: nat)
    requires Tiled(bs, size, least) && least > 0 && k < |bs|
    ensures bs[k].end == StartOf(bs, k + 1, size)
    ensures bs[k].start < bs[k].end <= size && (bs[k].end == size <==> k + 1 == |bs|)
  {
    assert BlockOk(bs, size, least, k);
    StartsIncrease(bs, size, least, k, |bs|);
    if k + 1 < |bs| {
      StartsIncrease(bs, size, least, k + 1, |bs|);
      assert BlockOk(bs, size, least, k + 1);
    }
  }

  lemma FindAt(bs: Blocks, size: nat, least: nat, k: nat)
    requires Tiled(bs, size, least) && least > 0 && k < |bs|
    ensures Find(bs, bs[k].start) == k
  {
    var f := Find(bs, bs[k].start);
    if f < k {
      BlocksDisjoint(bs, size, least, f, k);
    }
  }

  // ------------------------------------------------------------------- changes

  function Mark(bs: Blocks, k: nat, used: bool): (r: Blocks)
    requires k < |bs|
    ensures |r| == |bs|
  {
    bs[k := bs[k].(used := used)]
  }

  /** Block k ends at `mid`, a new block takes the rest. */
  function Split(bs: Blocks, k: nat, mid: nat, used: bool, usedRest: bool): (r: Blocks)
    requires k < |bs|
    ensures |r| == |bs| + 1
  {
    seq(|bs| + 1, i requires 0 <= i <= |bs| =>
      if i < k then bs[i]
      else if i == k then Block(bs[k].start, mid, used)
      else if i == k + 1 then Block(mid, bs[k].end, usedRest)
      else bs[i - 1])
  }

  /** Block k swallows its successor. */
  function Join(bs: Blocks, k: nat): (r: Blocks)
    requires k + 1 < |bs|
    ensures |r| == |bs| - 1
  {
    seq(|bs| - 1, i requires 0 <= i < |bs| - 1 =>
      if i < k then bs[i]
      else if i == k then Block(bs[k].start, bs[k + 1].end, bs[k].used)
      else bs[i + 1])
  }

  lemma SplitAt(bs: Blocks, k: nat, mid: nat, used: bool, usedRest: bool)
    requires k < |bs|
    ensures var r := Split(bs, k, mid, used, usedRest);
      forall i :: 0 <= i < |r| ==>
        r[i] == if i < k then bs[i]
                else if i == k then Block(bs[k].start, mid, used)
                else if i == k + 1 then Block(mid, bs[k].end, usedRest)
                else bs[i - 1]
  {
  }

  lemma JoinAt(bs: Blocks, k: nat)
    requires k + 1 < |bs|
    ensures var r := Join(bs, k);
      forall i :: 0 <= i < |r| ==>
        r[i] == if i < k then bs[i]
                else if i == k then Block(bs[k].start, bs[k + 1].end, bs[k].used)
                else bs[i + 1]
  {
  }

  lemma MarkTiled(bs: Blocks, size: nat, least: nat, k: nat, used: bool)
    requires Tiled(bs, size, least) && k < |bs|
    ensures Tiled(Mark(bs, k, used), size, least)
  {
    var r := Mark(bs, k, used);
    forall i | 0 <= i < |r| ensures BlockOk(r, size, least, i) {
      assert BlockOk(bs, size, least, i);
    }
  }

  lemma SplitTiled(bs: Blocks, size: nat, least: nat, k: nat, mid: nat, used: bool, usedRest: bool)
    requires Tiled(bs, size, least) && k < |bs|
    requires bs[k].start + least <= mid && mid + least <= bs[k].end
    ensures Tiled(Split(bs, k, mid, used, usedRest), size, least)
  {
    var r := Split(bs, k, mid, used, usedRest);
    SplitAt(bs, k, mid, used, usedRest);
    forall i | 0 <= i < |r| ensures BlockOk(r, size, least, i) {
      assert BlockOk(bs, size, least, if i <= k then i else i - 1);
    }
  }

  lemma JoinTiled(bs: Blocks, size: nat, least: nat, k: nat)
    requires Tiled(bs, size, least) && k + 1 < |bs|
    ensures Tiled(Join(bs, k), size, least)
  {
    var r := Join(bs, k);
    JoinAt(bs, k);
    assert BlockOk(bs, size, least, k);
    forall i | 0 <= i < |r| ensures BlockOk(r, size, least, i) {
      assert BlockOk(bs, size, least, if i < k then i else i + 1);
    }
  }

  lemma SplitAligned(bs: Blocks, k: nat, mid: nat, used: bool, usedRest: bool)
    requires Aligned(bs) && k < |bs| && mid % 4 == 0
    ensures Aligned(Split(bs, k, mid, used, usedRest))
  {
    SplitAt(bs, k, mid, used, usedRest);
  }

  lemma ShiftAligned(bs: Blocks, k: nat, mid: nat)
    requires Aligned(bs) && k + 1 < |bs| && mid % 4 == 0
    ensures Aligned(Shift(bs, k, mid))
  {
  }

  lemma ReleaseAligned(bs: Blocks, k: nat)
    requires Aligned(bs) && k < |bs|
    ensures Aligned(Release(bs, k))
  {
    var b0 := Mark(bs, k, false);
    if k + 1 < |b0| { JoinAligned(b0, k); }
    var b1 := PlugNext(b0, k);
    if k > 0 { JoinAligned(b1, k - 1); }
  }

  lemma JoinAligned(bs: Blocks, k: nat)
    requires Aligned(bs) && k + 1 < |bs|
    ensures Aligned(Join(bs, k))
  {
    JoinAt(bs, k);
  }

  // ------------------------------------------------ the same changes in memory

  function SetNext(ram: Ram, at: nat, next: nat): Ram
    requires at in ram
  {
    ram[at := ram[at].(next := next)]
  }

  function SetPrev(ram: Ram, at: nat, prev: nat): Ram
    requires at in ram
  {
    ram[at := ram[at].(prev := prev)]
  }

  function SetUsed(ram: Ram, at: nat, used: bool): Ram
    requires at in ram
  {
    ram[at := ram[at].(used := used)]
  }

  lemma DifferentStarts(bs: Blocks, size: nat, least: nat, i: nat, j: nat)
    requires Tiled(bs, size, least) && least > 0 && i < |bs| && j < |bs| && i != j
    ensures bs[i].start != bs[j].start
    ensures bs[j].end != bs[i].start || i == j + 1
    ensures bs[j].end <= bs[i].start || bs[i].end <= bs[j].start
  {
    BlocksDisjoint(bs, size, least, if i < j then i else j, if i < j then j else i);
    assert BlockOk(bs, size, least, j);
    if j + 1 < i { BlocksDisjoint(bs, size, least, j + 1, i); }
  }

  lemma MarkLinked(bs: Blocks, ram: Ram, firstPrev: nat, size: nat, least: nat, k: nat, used: bool)
    requires Tiled(bs, size, least) && least > 0 && Linked(bs, ram, firstPrev) && k < |bs|
    ensures bs[k].start in ram && Linked(Mark(bs, k, used), SetUsed(ram, bs[k].start, used), firstPrev)
  {
    var r := Mark(bs, k, used);
    assert HeaderOk(bs, ram, firstPrev, k);
    var ram' := SetUsed(ram, bs[k].start, used);
    forall i | 0 <= i < |r| ensures HeaderOk(r, ram', firstPrev, i) {
      assert HeaderOk(bs, ram, firstPrev, i);
      if i != k { DifferentStarts(bs, size, least, i, k); }
    }
  }

  /** Writing the new header, the old header's next, and the successor's prev is a split. */
  lemma SplitLinked(bs: Blocks, ram: Ram, firstPrev: nat, size: nat, least: nat, k: nat, mid: nat, used: bool, usedRest: bool)
    requires Tiled(bs, size, least) && least > 0 && Linked(bs, ram, firstPrev) && k < |bs|
    requires bs[k].start < mid < bs[k].end && bs[k].end in ram
    ensures var ram2 := ram[mid := Header(bs[k].end, bs[k].start, usedRest)]
                           [bs[k].start := Header(mid, PrevStart(bs, k, firstPrev), used)];
      && Linked(Split(bs, k, mid, used, usedRest), SetPrev(ram2, bs[k].end, mid), firstPrev)
      && (k + 1 == |bs| ==> Linked(Split(bs, k, mid, used, usedRest), ram2, firstPrev))
  {
    var r := Split(bs, k, mid, used, usedRest);
    SplitAt(bs, k, mid, used, usedRest);
    var ram2 := ram[mid := Header(bs[k].end, bs[k].start, usedRest)][bs[k].start := Header(mid, PrevStart(bs, k, firstPrev), used)];
    var ram3 := SetPrev(ram2, bs[k].end, mid);
    forall i | 0 <= i < |r|
      ensures HeaderOk(r, ram3, firstPrev, i) && (k + 1 == |bs| ==> HeaderOk(r, ram2, firstPrev, i))
    {
      if i == k || i == k + 1 {
        assert HeaderOk(bs, ram, firstPrev, k);
      } else {
        var j := if i < k then i else i - 1;
        assert HeaderOk(bs, ram, firstPrev, j);
        DifferentStarts(bs, size, least, j, k);
        assert BlockOk(bs, size, least, k) && BlockOk(bs, size, least, j);
        assert PrevStart(r, i, firstPrev) == if j == k + 1 then mid else PrevStart(bs, j, firstPrev);
      }
    }
  }

  /** Writing the header's next and the prev of what follows is a join. */
  lemma JoinLinked(bs: Blocks, ram: Ram, firstPrev: nat, size: nat, least: nat, k: nat)
    requires Tiled(bs, size, least) && least > 0 && Linked(bs, ram, firstPrev) && k + 1 < |bs|
    requires bs[k + 1].end in ram
    ensures bs[k].start in ram
    ensures Linked(Join(bs, k), SetPrev(SetNext(ram, bs[k].start, bs[k + 1].end), bs[k + 1].end, bs[k].start), firstPrev)
  {
    var r := Join(bs, k);
    JoinAt(bs, k);
    assert HeaderOk(bs, ram, firstPrev, k);
    var ram2 := SetPrev(SetNext(ram, bs[k].start, bs[k + 1].end), bs[k + 1].end, bs[k].start);
    forall i | 0 <= i < |r| ensures HeaderOk(r, ram2, firstPrev, i) {
      if i == k {
        BlocksDisjoint(bs, size, least, k, k + 1);
      } else {
        var j := if i < k then i else i + 1;
        assert HeaderOk(bs, ram, firstPrev, j);
        DifferentStarts(bs, size, least, j, k);
        DifferentStarts(bs, size, least, j, k + 1);
        assert BlockOk(bs, size, least, k + 1);
        assert PrevStart(r, i, firstPrev) == if j == k + 2 then bs[k].start else PrevStart(bs, j, firstPrev);
      }
    }
  }

  /** When nothing is in use any more, one block is left: no memory is lost. */
  lemma AllFreeIsOneBlock(bs: Blocks, size: nat, least: nat)
    requires Good(bs, size, least)
    requires forall i :: 0 <= i < |bs| ==> !bs[i].used
    ensures bs == [Block(0, size, false)]
  {
    assert RightOk(bs, 0) && BlockOk(bs, size, least, 0);
  }

  // ------------------------------------------------- moving a boundary (mem_trim)

  /** Block k gives what lies behind `mid` to its successor. */
  function Shift(bs: Blocks, k: nat, mid: nat): (r: Blocks)
    requires k + 1 < |bs|
    ensures |r| == |bs|
  {
    bs[k := bs[k].(end := mid)][k + 1 := bs[k + 1].(start := mid)]
  }

  lemma ShiftTiled(bs: Blocks, size: nat, least: nat, k: nat, mid: nat)
    requires Tiled(bs, size, least) && k + 1 < |bs|
    requires bs[k].start + least <= mid <= bs[k].end
    ensures Tiled(Shift(bs, k, mid), size, least)
  {
    var r := Shift(bs, k, mid);
    assert BlockOk(bs, size, least, k);
    forall i | 0 <= i < |r| ensures BlockOk(r, size, least, i) {
      assert BlockOk(bs, size, least, i);
    }
  }

  lemma ShiftLinked(bs: Blocks, ram: Ram, firstPrev: nat, size: nat, least: nat, k: nat, mid: nat)
    requires Tiled(bs, size, least) && least > 0 && Linked(bs, ram, firstPrev) && k + 1 < |bs|
    requires bs[k].start < mid <= bs[k].end && bs[k + 1].end in ram
    ensures bs[k].start in ram
    ensures var ram2 := SetNext(ram[mid := Header(bs[k + 1].end, bs[k].start, bs[k + 1].used)], bs[k].start, mid);
      && Linked(Shift(bs, k, mid), SetPrev(ram2, bs[k + 1].end, mid), firstPrev)
      && (k + 2 == |bs| ==> Linked(Shift(bs, k, mid), ram2, firstPrev))
  {
    var r := Shift(bs, k, mid);
    assert HeaderOk(bs, ram, firstPrev, k) && HeaderOk(bs, ram, firstPrev, k + 1);
    var ram2 := SetNext(ram[mid := Header(bs[k + 1].end, bs[k].start, bs[k + 1].used)], bs[k].start, mid);
    var ram3 := SetPrev(ram2, bs[k + 1].end, mid);
    forall i | 0 <= i < |r|
      ensures HeaderOk(r, ram3, firstPrev, i) && (k + 2 == |bs| ==> HeaderOk(r, ram2, firstPrev, i))
    {
      assert HeaderOk(bs, ram, firstPrev, i);
      if i != k { DifferentStarts(bs, size, least, i, k); }
      if i != k + 1 { DifferentStarts(bs, size, least, i, k + 1); }
      assert BlockOk(bs, size, least, k) && BlockOk(bs, size, least, k + 1) && BlockOk(bs, size, least, i);
      assert PrevStart(r, i, firstPrev) == if i == k + 2 then mid else PrevStart(bs, i, firstPrev);
    }
  }

  // ------------------------------------------------------------- the lowest free block

  function FirstFree(bs: Blocks): (k: nat)
    ensures k <= |bs|
    ensures k < |bs| ==> !bs[k].used
    ensures forall i :: 0 <= i < k ==> bs[i].used
  {
    if bs == [] then 0 else if !bs[0].used then 0 else 1 + FirstFree(bs[1..])
  }

  function LowestFree(bs: Blocks, size: nat): nat {
    StartOf(bs, FirstFree(bs), size)
  }

  lemma FirstFreeIs(bs: Blocks, k: nat)
    requires k <= |bs| && (k < |bs| ==> !bs[k].used)
    requires forall i :: 0 <= i < k ==> bs[i].used
    ensures FirstFree(bs) == k
  {
  }

  // --------------------------------------------------- keeping free blocks apart

  /** Two neighbouring free blocks can only involve block k. */
  ghost predicate FreePairsOnlyAt(bs: Blocks, k: nat) {
    forall i: nat :: i != k && i + 1 != k ==> RightOk(bs, i)
  }

  lemma MarkPairs(bs: Blocks, k: nat)
    requires NoFreeNeighbours(bs) && k < |bs|
    ensures FreePairsOnlyAt(Mark(bs, k, false), k) && NoFreeNeighbours(Mark(bs, k, true))
  {
    forall i: nat ensures i != k && i + 1 != k ==> RightOk(Mark(bs, k, false), i) {
      assert RightOk(bs, i);
    }
    forall i: nat ensures RightOk(Mark(bs, k, true), i) {
      assert RightOk(bs, i);
    }
  }

  lemma SplitPairs(bs: Blocks, k: nat, mid: nat)
    requires NoFreeNeighbours(bs) && k < |bs| && (k + 1 < |bs| ==> bs[k + 1].used)
    ensures NoFreeNeighbours(Split(bs, k, mid, true, false))
  {
    var r := Split(bs, k, mid, true, false);
    SplitAt(bs, k, mid, true, false);
    forall i: nat ensures RightOk(r, i) {
      assert RightOk(bs, if i < k || i == 0 then i else i - 1);
    }
  }

  lemma JoinNextPairs(bs: Blocks, k: nat)
    requires FreePairsOnlyAt(bs, k) && k + 1 < |bs| && !bs[k + 1].used
    ensures FreePairsOnlyAt(Join(bs, k), k) && RightOk(Join(bs, k), k)
  {
    var r := Join(bs, k);
    JoinAt(bs, k);
    forall i: nat | i != k && i + 1 != k ensures RightOk(r, i) {
      assert RightOk(bs, if i < k then i else i + 1);
    }
    assert RightOk(bs, k + 1);
  }

  lemma JoinPrevPairs(bs: Blocks, k: nat)
    requires FreePairsOnlyAt(bs, k) && RightOk(bs, k) && 0 < k < |bs| && !bs[k].used && !bs[k - 1].used
    ensures NoFreeNeighbours(Join(bs, k - 1))
  {
    var r := Join(bs, k - 1);
    JoinAt(bs, k - 1);
    assert k > 1 ==> RightOk(bs, k - 2);
    forall i: nat ensures RightOk(r, i) {
      assert i + 1 < k ==> RightOk(bs, i);
      assert i >= k ==> RightOk(bs, i + 1);
    }
  }

  // ------------------------------------------------- the changes keep the blocks good

  lemma MarkUsedGood(bs: Blocks, size: nat, least: nat, k: nat)
    requires Good(bs, size, least) && k < |bs|
    ensures Good(Mark(bs, k, true), size, least)
  {
    MarkTiled(bs, size, least, k, true);
    MarkPairs(bs, k);
  }

  lemma SplitGood(bs: Blocks, size: nat, least: nat, k: nat, mid: nat)
    requires Good(bs, size, least) && k < |bs| && (k + 1 < |bs| ==> bs[k + 1].used)
    requires bs[k].start + least <= mid && mid + least <= bs[k].end
    ensures Good(Split(bs, k, mid, true, false), size, least)
  {
    SplitTiled(bs, size, least, k, mid, true, false);
    SplitPairs(bs, k, mid);
  }

  lemma ShiftGood(bs: Blocks, size: nat, least: nat, k: nat, mid: nat)
    requires Good(bs, size, least) && k + 1 < |bs|
    requires bs[k].start + least <= mid <= bs[k].end
    ensures Good(Shift(bs, k, mid), size, least)
  {
    ShiftTiled(bs, size, least, k, mid);
    var r := Shift(bs, k, mid);
    forall i: nat ensures RightOk(r, i) {
      assert RightOk(bs, i);
    }
  }

  /** Good apart from free neighbours at block k, which is free. */
  ghost predicate GoodBut(bs: Blocks, size: nat, least: nat, k: nat) {
    Tiled(bs, size, least) && FreePairsOnlyAt(bs, k) && k < |bs| && !bs[k].used
  }

  lemma MarkFreeGood(bs: Blocks, size: nat, least: nat, k: nat)
    requires Good(bs, size, least) && k < |bs|
    ensures GoodBut(Mark(bs, k, false), size, least, k)
  {
    MarkTiled(bs, size, least, k, false);
    MarkPairs(bs, k);
  }

  /** Join block k with its successor if that is free. */
  function PlugNext(bs: Blocks, k: nat): (r: Blocks)
    requires k < |bs|
    ensures k < |r|
  {
    if k + 1 < |bs| && !bs[k + 1].used then Join(bs, k) else bs
  }

  /** Join block k with its predecessor if that is free. */
  function PlugPrev(bs: Blocks, k: nat): Blocks
    requires k < |bs|
  {
    if k > 0 && !bs[k - 1].used then Join(bs, k - 1) else bs
  }

  lemma PlugNextGood(bs: Blocks, size: nat, least: nat, k: nat)
    requires GoodBut(bs, size, least, k)
    ensures GoodBut(PlugNext(bs, k), size, least, k) && RightOk(PlugNext(bs, k), k)
  {
    if k + 1 < |bs| && !bs[k + 1].used {
      JoinTiled(bs, size, least, k);
      JoinNextPairs(bs, k);
      JoinAt(bs, k);
    }
  }

  lemma PlugPrevGood(bs: Blocks, size: nat, least: nat, k: nat)
    requires GoodBut(bs, size, least, k) && RightOk(bs, k)
    ensures Good(PlugPrev(bs, k), size, least)
  {
    if k > 0 && !bs[k - 1].used {
      JoinTiled(bs, size, least, k - 1);
      JoinPrevPairs(bs, k);
    } else {
      forall i: nat ensures RightOk(bs, i) {
        assert i != k && i + 1 != k ==> RightOk(bs, i);
      }
    }
  }

  /** Freeing a used block and joining it with free neighbours. */
  function Release(bs: Blocks, k: nat): Blocks
    requires k < |bs|
  {
    PlugPrev(PlugNext(Mark(bs, k, false), k), k)
  }

  lemma ReleaseGood(bs: Blocks, size: nat, least: nat, k: nat)
    requires Good(bs, size, least) && k < |bs|
    ensures Good(Release(bs, k), size, least)
  {
    MarkFreeGood(bs, size, least, k);
    PlugNextGood(Mark(bs, k, false), size, least, k);
    PlugPrevGood(PlugNext(Mark(bs, k, false), k), size, least, k);
  }

  // ------------------------------------------------------------- who is in the list

  lemma MarkIn(bs: Blocks, size: nat, least: nat, k: nat, used: bool, b: Block)
    requires Tiled(bs, size, least) && least > 0 && k < |bs|
    ensures b in Mark(bs, k, used) <==> (b in bs && b != bs[k]) || b == bs[k].(used := used)
  {
    var r := Mark(bs, k, used);
    if i :| 0 <= i < |r| && r[i] == b && i != k {
      DifferentStarts(bs, size, least, i, k);
      assert b == bs[i];
    }
    if i :| 0 <= i < |bs| && bs[i] == b && i != k {
      assert r[i] == b;
    }
    assert r[k] == bs[k].(used := used);
  }

  lemma SplitIn(bs: Blocks, size: nat, least: nat, k: nat, mid: nat, used: bool, usedRest: bool, b: Block)
    requires Tiled(bs, size, least) && least > 0 && k < |bs|
    ensures b in Split(bs, k, mid, used, usedRest) <==>
      || (b in bs && b != bs[k])
      || b == Block(bs[k].start, mid, used) || b == Block(mid, bs[k].end, usedRest)
  {
    var r := Split(bs, k, mid, used, usedRest);
    SplitAt(bs, k, mid, used, usedRest);
    if i :| 0 <= i < |r| && r[i] == b && i != k && i != k + 1 {
      var j := if i < k then i else i - 1;
      DifferentStarts(bs, size, least, j, k);
      assert b == bs[j];
    }
    if i :| 0 <= i < |bs| && bs[i] == b && i != k {
      assert r[if i < k then i else i + 1] == b;
    }
    assert r[k] == Block(bs[k].start, mid, used) && r[k + 1] == Block(mid, bs[k].end, usedRest);
  }

  lemma JoinIn(bs: Blocks, size: nat, least: nat, k: nat, b: Block)
    requires Tiled(bs, size, least) && least > 0 && k + 1 < |bs|
    ensures b in Join(bs, k) <==>
      (b in bs && b != bs[k] && b != bs[k + 1]) || b == Block(bs[k].start, bs[k + 1].end, bs[k].used)
  {
    var r := Join(bs, k);
    JoinAt(bs, k);
    if i :| 0 <= i < |r| && r[i] == b && i != k {
      var j := if i < k then i else i + 1;
      DifferentStarts(bs, size, least, j, k);
      DifferentStarts(bs, size, least, j, k + 1);
      assert b == bs[j];
    }
    if i :| 0 <= i < |bs| && bs[i] == b && i != k && i != k + 1 {
      assert r[if i < k then i else i - 1] == b;
    }
    assert r[k] == Block(bs[k].start, bs[k + 1].end, bs[k].used);
  }

  lemma ShiftIn(bs: Blocks, size: nat, least: nat, k: nat, mid: nat, b: Block)
    requires Tiled(bs, size, least) && least > 0 && k + 1 < |bs|
    ensures b in Shift(bs, k, mid) <==>
      || (b in bs && b != bs[k] && b != bs[k + 1])
      || b == bs[k].(end := mid) || b == bs[k + 1].(start := mid)
  {
    var r := Shift(bs, k, mid);
    if i :| 0 <= i < |r| && r[i] == b && i != k && i != k + 1 {
      DifferentStarts(bs, size, least, i, k);
      DifferentStarts(bs, size, least, i, k + 1);
      assert b == bs[i];
    }
    if i :| 0 <= i < |bs| && bs[i] == b && i != k && i != k + 1 {
      assert r[i] == b;
    }
    assert r[k] == bs[k].(end := mid) && r[k + 1] == bs[k + 1].(start := mid);
  }

  /** Freeing a block removes it from the used blocks and leaves all others as they are. */
  lemma ReleaseUsed(bs: Blocks, size: nat, least: nat, k: nat, b: Block)
    requires Tiled(bs, size, least) && least > 0 && k < |bs| && b.used
    ensures b in Release(bs, k) <==> b in bs && b != bs[k]
  {
    var b0 := Mark(bs, k, false);
    MarkIn(bs, size, least, k, false, b);
    MarkTiled(bs, size, least, k, false);
    var b1 := PlugNext(b0, k);
    if k + 1 < |b0| && !b0[k + 1].used {
      JoinIn(b0, size, least, k, b);
      JoinTiled(b0, size, least, k);
      JoinAt(b0, k);
    }
    if k > 0 && !b1[k - 1].used {
      JoinIn(b1, size, least, k - 1, b);
    }
  }

  // --------------------------------------------------------------- carving

  /** r comes of bs by making the beginning of the unused block b the used block u: it has the length that
      is needed, with less than `slack` to spare, what is left of b is unused, and all else is as before. */
  ghost predicate Carved(bs: Blocks, r: Blocks, b: Block, u: Block, need: nat, slack: nat) {
    && b in bs && !b.used && u.used && u.start == b.start && u.end <= b.end
    && b.start + need <= u.end < b.start + need + slack
    && forall a: Block :: a in r <==> (a in bs && a != b) || a == u || (u.end < b.end && a == Block(u.end, b.end, false))
  }

  lemma CarvedBySplit(bs: Blocks, size: nat, least: nat, k: nat, need: nat, slack: nat)
    requires Tiled(bs, size, least) && least > 0 && slack > 0 && k < |bs| && !bs[k].used && bs[k].start + need < bs[k].end
    ensures var mid := bs[k].start + need;
      Carved(bs, Split(bs, k, mid, true, false), bs[k], Block(bs[k].start, mid, true), need, slack)
  {
    var mid := bs[k].start + need;
    forall a: Block
      ensures a in Split(bs, k, mid, true, false) <==>
        || (a in bs && a != bs[k]) || a == Block(bs[k].start, mid, true) || a == Block(mid, bs[k].end, false)
    {
      SplitIn(bs, size, least, k, mid, true, false, a);
    }
  }

  lemma CarvedWhole(bs: Blocks, size: nat, least: nat, k: nat, need: nat, slack: nat)
    requires Tiled(bs, size, least) && least > 0 && k < |bs| && !bs[k].used
    requires bs[k].start + need <= bs[k].end < bs[k].start + need + slack
    ensures Carved(bs, Mark(bs, k, true), bs[k], bs[k].(used := true), need, slack)
  {
    forall a: Block ensures a in Mark(bs, k, true) <==> (a in bs && a != bs[k]) || a == bs[k].(used := true) {
      MarkIn(bs, size, least, k, true, a);
    }
  }
}
