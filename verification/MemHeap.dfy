/**
  The lwIP heap (mem.c): first-fit allocation from the lowest free block, freeing
  with coalescing on both sides, and trimming an allocation in place.

  `MallocSpec`, `FreeSpec` and `TrimSpec` say what the operations do to the list of
  blocks; the class below does it in memory, header by header.
*/
module MemHeap {
  import opened Common
  import opened Tiling
  import opened Holders

  /** MEM_SIZE_ALIGNED, SIZEOF_STRUCT_MEM and MIN_SIZE_ALIGNED. */
  datatype Config = Config(size: nat, hdr: nat, min: nat)

  predicate Sane(c: Config) {
    c.hdr > 0 && c.min > 0 && c.size >= c.hdr + c.min
  }

  predicate AlignedConfig(c: Config) {
    c.size % 4 == 0 && c.hdr % 4 == 0 && c.min % 4 == 0
  }

  /** The size that is really asked for: aligned and at least the minimum. */
  function Rounded(c: Config, size: nat): (n: nat)
    ensures size <= n && c.min <= n
    ensures c.min % 4 == 0 ==> n % 4 == 0
  {
    if AlignUp(size) < c.min then c.min else AlignUp(size)
  }

  predicate Fits(c: Config, b: Block, n: nat) {
    !b.used && b.end >= b.start + c.hdr + n
  }

  /** The lowest unused block with room for n bytes. */
  function FirstFit(c: Config, bs: Blocks, n: nat): (k: nat)
    ensures k <= |bs|
    ensures k < |bs| ==> Fits(c, bs[k], n)
    ensures forall i :: 0 <= i < k ==> !Fits(c, bs[i], n)
  {
    if bs == [] then 0 else if Fits(c, bs[0], n) then 0 else 1 + FirstFit(c, bs[1..], n)
  }

  /** Use block k for n bytes, splitting it when the rest can hold a block. */
  function Take(c: Config, bs: Blocks, k: nat, n: nat): Blocks
    requires k < |bs|
  {
    if bs[k].end - bs[k].start - c.hdr >= n + c.hdr + c.min
    then Split(bs, k, bs[k].start + c.hdr + n, true, false)
    else Mark(bs, k, true)
  }

  /** mem_malloc of n bytes, n being rounded already. */
  function MallocSpec(c: Config, bs: Blocks, n: nat): (Blocks, Option<nat>) {
    var k := FirstFit(c, bs, n);
    if k == |bs| then (bs, None) else (Take(c, bs, k, n), Some(bs[k].start + c.hdr))
  }

  function ShapeOf(c: Config): Shape {
    Shape(c.size, c.hdr + c.min, c.hdr)
  }

  /** mem_free of NULL or of something outside the heap changes nothing. */
  function FreeSpec(c: Config, bs: Blocks, rmem: Option<nat>): Blocks
    requires rmem.Some? && rmem.value < c.size ==> IsData(ShapeOf(c), bs, rmem.value)
  {
    if rmem.None? || rmem.value >= c.size then bs else Release(bs, Find(bs, rmem.value - c.hdr))
  }

  /** mem_trim of the block at k to n bytes, n being rounded; the flag tells whether it was big enough. */
  function TrimSpec(c: Config, bs: Blocks, k: nat, n: nat): (Blocks, bool)
    requires k < |bs|
  {
    var mid := bs[k].start + c.hdr + n;
    if mid > bs[k].end then (bs, false)
    else if mid == bs[k].end then (bs, true)
    else (Shrunk(c, bs, k, mid), true)
  }

  /** What lies behind `mid` goes to an unused successor, or becomes a block if it can be one. */
  function Shrunk(c: Config, bs: Blocks, k: nat, mid: nat): Blocks
    requires k < |bs|
  {
    if k + 1 < |bs| && !bs[k + 1].used then Shift(bs, k, mid)
    else if mid + c.hdr + c.min <= bs[k].end then Split(bs, k, mid, true, false)
    else bs
  }

  // ---------------------------------------------------- the operations keep the heap good

  ghost predicate GoodHeap(c: Config, bs: Blocks) {
    Good(bs, c.size, c.hdr + c.min)
  }

  lemma TakeGood(c: Config, bs: Blocks, k: nat, n: nat)
    requires Sane(c) && GoodHeap(c, bs) && k < |bs| && !bs[k].used
    requires c.min <= n && Fits(c, bs[k], n)
    ensures GoodHeap(c, Take(c, bs, k, n))
  {
    if bs[k].end - bs[k].start - c.hdr >= n + c.hdr + c.min {
      assert RightOk(bs, k);
      SplitGood(bs, c.size, c.hdr + c.min, k, bs[k].start + c.hdr + n);
    } else {
      MarkUsedGood(bs, c.size, c.hdr + c.min, k);
    }
  }

  lemma ShrunkGood(c: Config, bs: Blocks, k: nat, mid: nat)
    requires Sane(c) && GoodHeap(c, bs) && k < |bs| && bs[k].used
    requires bs[k].start + c.hdr + c.min <= mid < bs[k].end
    ensures GoodHeap(c, Shrunk(c, bs, k, mid))
  {
    if k + 1 < |bs| && !bs[k + 1].used {
      ShiftGood(bs, c.size, c.hdr + c.min, k, mid);
    } else if mid + c.hdr + c.min <= bs[k].end {
      SplitGood(bs, c.size, c.hdr + c.min, k, mid);
    }
  }

  lemma TrimGood(c: Config, bs: Blocks, k: nat, n: nat)
    requires Sane(c) && GoodHeap(c, bs) && k < |bs| && bs[k].used && c.min <= n
    ensures GoodHeap(c, TrimSpec(c, bs, k, n).0)
  {
    if bs[k].start + c.hdr + n < bs[k].end {
      ShrunkGood(c, bs, k, bs[k].start + c.hdr + n);
    }
  }

  // --------------------------------------------------------- the heap in memory

  /** ram_end is always marked used, so that nothing is joined with it. */
  predicate EndMarked(ram: Ram, size: nat) {
    size in ram && ram[size].used
  }

  /** The headers in memory spell out `bs`, whatever is free next to what. */
  ghost predicate Sound(c: Config, bs: Blocks, ram: Ram) {
    && c.hdr > 0 && Tiled(bs, c.size, c.hdr + c.min)
    && Linked(bs, ram, 0) && EndMarked(ram, c.size)
  }

  /** What reading the header at block k and following its next index gives. */
  lemma SoundAt(c: Config, bs: Blocks, ram: Ram, k: nat)
    requires Sound(c, bs, ram) && k < |bs|
    ensures bs[k].start in ram && ram[bs[k].start] == Header(bs[k].end, PrevStart(bs, k, 0), bs[k].used)
    ensures bs[k].end in ram && bs[k].start < bs[k].end <= c.size && (bs[k].end == c.size <==> k + 1 == |bs|)
    ensures k + 1 == |bs| ==> ram[bs[k].end].used
    ensures k + 1 < |bs| ==> bs[k].end == bs[k + 1].start && ram[bs[k].end].used == bs[k + 1].used
  {
    assert HeaderOk(bs, ram, 0, k) && (k + 1 < |bs| ==> HeaderOk(bs, ram, 0, k + 1));
    NextStart(bs, c.size, c.hdr + c.min, k);
  }

  lemma SoundMark(c: Config, bs: Blocks, ram: Ram, k: nat, used: bool)
    requires Sound(c, bs, ram) && k < |bs|
    ensures bs[k].start in ram && Sound(c, Mark(bs, k, used), SetUsed(ram, bs[k].start, used))
  {
    SoundAt(c, bs, ram, k);
    MarkTiled(bs, c.size, c.hdr + c.min, k, used);
    MarkLinked(bs, ram, 0, c.size, c.hdr + c.min, k, used);
  }

  lemma SoundSplit(c: Config, bs: Blocks, ram: Ram, k: nat, mid: nat)
    requires Sound(c, bs, ram) && k < |bs|
    requires bs[k].start + c.hdr + c.min <= mid && mid + c.hdr + c.min <= bs[k].end
    ensures bs[k].end in ram
    ensures var ram2 := ram[mid := Header(bs[k].end, bs[k].start, false)]
                           [bs[k].start := Header(mid, PrevStart(bs, k, 0), true)];
      Sound(c, Split(bs, k, mid, true, false), if k + 1 < |bs| then SetPrev(ram2, bs[k].end, mid) else ram2)
  {
    SoundAt(c, bs, ram, k);
    SplitTiled(bs, c.size, c.hdr + c.min, k, mid, true, false);
    SplitLinked(bs, ram, 0, c.size, c.hdr + c.min, k, mid, true, false);
  }

  lemma SoundShift(c: Config, bs: Blocks, ram: Ram, k: nat, mid: nat)
    requires Sound(c, bs, ram) && k + 1 < |bs|
    requires bs[k].start + c.hdr + c.min <= mid <= bs[k].end
    ensures bs[k].start in ram && bs[k + 1].end in ram
    ensures var ram2 := SetNext(ram[mid := Header(bs[k + 1].end, bs[k].start, bs[k + 1].used)], bs[k].start, mid);
      Sound(c, Shift(bs, k, mid), if k + 2 < |bs| then SetPrev(ram2, bs[k + 1].end, mid) else ram2)
  {
    SoundAt(c, bs, ram, k);
    SoundAt(c, bs, ram, k + 1);
    ShiftTiled(bs, c.size, c.hdr + c.min, k, mid);
    ShiftLinked(bs, ram, 0, c.size, c.hdr + c.min, k, mid);
  }

  lemma SoundJoin(c: Config, bs: Blocks, ram: Ram, k: nat)
    requires Sound(c, bs, ram) && k + 1 < |bs|
    ensures bs[k].start in ram && bs[k + 1].end in ram
    ensures Sound(c, Join(bs, k), SetPrev(SetNext(ram, bs[k].start, bs[k + 1].end), bs[k + 1].end, bs[k].start))
    ensures Join(bs, k)[k] == Block(bs[k].start, bs[k + 1].end, bs[k].used)
  {
    SoundAt(c, bs, ram, k);
    SoundAt(c, bs, ram, k + 1);
    JoinTiled(bs, c.size, c.hdr + c.min, k);
    JoinLinked(bs, ram, 0, c.size, c.hdr + c.min, k);
    JoinAt(bs, k);
  }

  class Heap {
    const c: Config
    var ram: Ram         // the struct mem headers, by index
    var lfree: nat       // index of the lowest unused block, or of ram_end
    ghost var bs: Blocks

    ghost predicate Valid()
      reads this
    {
      Sane(c) && GoodHeap(c, bs) && Sound(c, bs, ram) && lfree == LowestFree(bs, c.size)
    }

    /** mem_init */
    constructor (c: Config)
      requires Sane(c)
      ensures Valid() && this.c == c && bs == [Block(0, c.size, false)]
    {
      this.c := c;
      ram := map[0 := Header(c.size, 0, false), c.size := Header(c.size, c.size, true)];
      lfree := 0;
      bs := [Block(0, c.size, false)];
      new;
      assert HeaderOk(bs, ram, 0, 0);
    }

    method RoundUp(size: nat) returns (n: nat)
      ensures n == Rounded(c, size)
    {
      n := AlignUp(size);
      if n < c.min {
        n := c.min;
      }
    }

    /** mem_malloc */
    method Malloc(size: nat) returns (p: Option<nat>)
      requires Valid()
      modifies this
      ensures Valid()
      ensures size == 0 || Rounded(c, size) > c.size ==> bs == old(bs) && p == None
      ensures size > 0 && Rounded(c, size) <= c.size ==>
        bs == MallocSpec(c, old(bs), Rounded(c, size)).0 && p == MallocSpec(c, old(bs), Rounded(c, size)).1
    {
      if size == 0 {
        return None;
      }
      var n := RoundUp(size);
      if n > c.size {
        return None;
      }
      var ptr, k := Search(n);
      if ptr.None? {
        return None;
      }
      TakeGood(c, bs, k, n);
      Occupy(ptr.value, n, k);
      p := Some(ptr.value + c.hdr);
    }

    /** Walk the headers from the lowest unused block until one has room for n bytes. */
    method Search(n: nat) returns (found: Option<nat>, ghost k: nat)
      requires Sound(c, bs, ram) && lfree == LowestFree(bs, c.size) && n <= c.size
      ensures k == FirstFit(c, bs, n) && FirstFree(bs) <= k
      ensures found == if k < |bs| then Some(bs[k].start) else None
    {
      var ptr := lfree;
      k := FirstFree(bs);
      while ptr < c.size - n
        invariant k <= |bs| && ptr == StartOf(bs, k, c.size)
        invariant FirstFree(bs) <= k && forall j :: 0 <= j < k ==> !Fits(c, bs[j], n)
        decreases |bs| - k
      {
        SoundAt(c, bs, ram, k);
        var mem := ram[ptr];
        if !mem.used && mem.next - (ptr + c.hdr) >= n {
          return Some(ptr), k;
        }
        ptr := mem.next;
        k := k + 1;
      }
      NoneFits(c, bs, n, k);
      return None, |bs|;
    }

    /** The part of mem_malloc that follows a successful search. */
    method Occupy(ptr: nat, n: nat, ghost k: nat)
      requires Sound(c, bs, ram) && lfree == LowestFree(bs, c.size) && FirstFree(bs) <= k
      requires k < |bs| && bs[k].start == ptr && Fits(c, bs[k], n) && c.min <= n
      modifies this
      ensures Sound(c, bs, ram) && lfree == LowestFree(bs, c.size) && bs == Take(c, old(bs), k, n)
    {
      SoundAt(c, bs, ram, k);
      ghost var r := TakeLowest(c, bs, k, n);
      if ram[ptr].next - (ptr + c.hdr) >= n + c.hdr + c.min {
        SplitHeaders(ptr, ptr + c.hdr + n, k);
      } else {
        MarkHeader(ptr, k, true);
      }
      assert bs == r;
      if ptr == lfree {
        lfree := ScanFree(ptr, k);
      }
    }

    method MarkHeader(ptr: nat, ghost k: nat, used: bool)
      requires Sound(c, bs, ram) && k < |bs| && bs[k].start == ptr
      modifies this`ram, this`bs
      ensures Sound(c, bs, ram) && bs == Mark(old(bs), k, used)
    {
      SoundMark(c, bs, ram, k, used);
      ram := SetUsed(ram, ptr, used);
      bs := Mark(bs, k, used);
    }

    /** Create a header at ptr2, behind the block at ptr, which becomes used. */
    method SplitHeaders(ptr: nat, ptr2: nat, ghost k: nat)
      requires Sound(c, bs, ram) && k < |bs| && bs[k].start == ptr
      requires ptr + c.hdr + c.min <= ptr2 && ptr2 + c.hdr + c.min <= bs[k].end
      modifies this`ram, this`bs
      ensures Sound(c, bs, ram) && bs == Split(old(bs), k, ptr2, true, false)
    {
      SoundAt(c, bs, ram, k);
      SoundSplit(c, bs, ram, k, ptr2);
      var next := ram[ptr].next;
      ram := ram[ptr2 := Header(next, ptr, false)];
      ram := ram[ptr := ram[ptr].(next := ptr2, used := true)];
      if next != c.size {
        ram := SetPrev(ram, next, ptr2);
      }
      bs := Split(bs, k, ptr2, true, false);
    }

    /** Find the next unused block from `ptr` on, or ram_end. */
    method ScanFree(ptr: nat, ghost k: nat) returns (cur: nat)
      requires Sound(c, bs, ram) && k < |bs| && ptr == bs[k].start && forall j :: 0 <= j < k ==> bs[j].used
      ensures cur == LowestFree(bs, c.size)
    {
      cur := ptr;
      ghost var i := k;
      SoundAt(c, bs, ram, k);
      while ram[cur].used && cur != c.size
        invariant i <= |bs| && cur == StartOf(bs, i, c.size) && cur in ram
        invariant i < |bs| ==> cur < c.size && ram[cur] == Header(bs[i].end, PrevStart(bs, i, 0), bs[i].used)
        invariant forall j :: 0 <= j < i ==> bs[j].used
        decreases |bs| - i
      {
        SoundAt(c, bs, ram, i);
        cur := ram[cur].next;
        i := i + 1;
        if i < |bs| { SoundAt(c, bs, ram, i); }
      }
      FirstFreeIs(bs, i);
    }

    /** mem_free; `rmem` is NULL, outside the heap, or the data of a used block. */
    method Free(rmem: Option<nat>)
      requires Valid()
      requires rmem.Some? && rmem.value < c.size ==> IsData(ShapeOf(c), bs, rmem.value)
      modifies this
      ensures Valid() && bs == FreeSpec(c, old(bs), rmem)
    {
      if rmem.None? || rmem.value >= c.size {
        return;
      }
      var mem := rmem.value - c.hdr;
      ghost var k := Find(bs, mem);
      ReleaseGood(bs, c.size, c.hdr + c.min, k);
      Unuse(mem, k);
    }

    /** The protected part of mem_free. */
    method Unuse(mem: nat, ghost k: nat)
      requires Sound(c, bs, ram) && lfree == LowestFree(bs, c.size)
      requires k < |bs| && bs[k].start == mem && bs[k].used
      modifies this
      ensures Sound(c, bs, ram) && lfree == LowestFree(bs, c.size) && bs == Release(old(bs), k)
    {
      MarkFreeLowest(bs, c.size, c.hdr + c.min, k);
      MarkHeader(mem, k, false);
      if mem < lfree {
        lfree := mem;
      }
      PlugHoles(mem, k);
    }

    /** plug_holes */
    method PlugHoles(mem: nat, ghost k: nat)
      requires Sound(c, bs, ram) && lfree == LowestFree(bs, c.size)
      requires k < |bs| && bs[k].start == mem && !bs[k].used
      modifies this
      ensures Sound(c, bs, ram) && lfree == LowestFree(bs, c.size)
      ensures bs == PlugPrev(PlugNext(old(bs), k), k)
    {
      PlugForward(mem, k);
      PlugBackward(mem, k);
    }

    method PlugForward(mem: nat, ghost k: nat)
      requires Sound(c, bs, ram) && lfree == LowestFree(bs, c.size)
      requires k < |bs| && bs[k].start == mem && !bs[k].used
      modifies this
      ensures Sound(c, bs, ram) && lfree == LowestFree(bs, c.size)
      ensures bs == PlugNext(old(bs), k) && bs[k].start == mem && !bs[k].used
    {
      SoundAt(c, bs, ram, k);
      var nmem := ram[mem].next;
      if mem != nmem && !ram[nmem].used && nmem != c.size {
        if lfree == nmem {
          lfree := mem;
        }
        LowestAtMost(bs, c.size, c.hdr + c.min, k);
        JoinLowest(bs, c.size, k);
        JoinHeaders(mem, nmem, k);
      }
    }

    /** The two header writes that make the block at `at` swallow the one at `gone`. */
    method JoinHeaders(at: nat, gone: nat, ghost k: nat)
      requires Sound(c, bs, ram) && k + 1 < |bs| && bs[k].start == at && bs[k + 1].start == gone
      modifies this`ram, this`bs
      ensures Sound(c, bs, ram) && bs == Join(old(bs), k)
      ensures k < |bs| && bs[k] == Block(at, old(bs)[k + 1].end, old(bs)[k].used)
    {
      SoundAt(c, bs, ram, k + 1);
      SoundJoin(c, bs, ram, k);
      ram := SetNext(ram, at, ram[gone].next);
      ram := SetPrev(ram, ram[gone].next, at);
      bs := Join(bs, k);
    }

    method PlugBackward(mem: nat, ghost k: nat)
      requires Sound(c, bs, ram) && lfree == LowestFree(bs, c.size)
      requires k < |bs| && bs[k].start == mem && !bs[k].used
      modifies this
      ensures Sound(c, bs, ram) && lfree == LowestFree(bs, c.size) && bs == PlugPrev(old(bs), k)
    {
      SoundAt(c, bs, ram, k);
      if k > 0 { SoundAt(c, bs, ram, k - 1); }
      var pmem := ram[mem].prev;
      if pmem != mem && !ram[pmem].used {
        if lfree == mem {
          lfree := pmem;
        }
        LowestAtMost(bs, c.size, c.hdr + c.min, k - 1);
        JoinLowest(bs, c.size, k - 1);
        JoinHeaders(pmem, mem, k - 1);
      }
    }

    /** mem_trim; the result is `rmem`, or NULL if the block is smaller than `newsize`. */
    method Trim(rmem: nat, newsize: nat) returns (p: Option<nat>)
      requires Valid()
      requires rmem < c.size ==> IsData(ShapeOf(c), bs, rmem)
      modifies this
      ensures Valid()
      ensures Rounded(c, newsize) > c.size ==> bs == old(bs) && p == None
      ensures Rounded(c, newsize) <= c.size && rmem >= c.size ==> bs == old(bs) && p == Some(rmem)
      ensures Rounded(c, newsize) <= c.size && rmem < c.size ==>
        var r := TrimSpec(c, old(bs), Find(old(bs), rmem - c.hdr), Rounded(c, newsize));
        bs == r.0 && p == if r.1 then Some(rmem) else None
    {
      var n := RoundUp(newsize);
      if n > c.size {
        return None;
      }
      if rmem >= c.size {
        return Some(rmem);
      }
      ghost var k := Find(bs, rmem - c.hdr);
      TrimGood(c, bs, k, n);
      var ok := TrimBlock(rmem - c.hdr, n, k);
      p := if ok then Some(rmem) else None;
    }

    method TrimBlock(ptr: nat, n: nat, ghost k: nat) returns (ok: bool)
      requires Sound(c, bs, ram) && lfree == LowestFree(bs, c.size)
      requires k < |bs| && bs[k].start == ptr && bs[k].used && c.min <= n
      modifies this
      ensures Sound(c, bs, ram) && lfree == LowestFree(bs, c.size)
      ensures bs == TrimSpec(c, old(bs), k, n).0 && ok == TrimSpec(c, old(bs), k, n).1
    {
      SoundAt(c, bs, ram, k);
      var size := ram[ptr].next - ptr - c.hdr;
      if n > size {
        return false;
      }
      if n == size {
        return true;
      }
      Shrink(ptr, n, k);
      ok := true;
    }

    /** The protected part of mem_trim. */
    method Shrink(ptr: nat, n: nat, ghost k: nat)
      requires Sound(c, bs, ram) && lfree == LowestFree(bs, c.size)
      requires k < |bs| && bs[k].start == ptr && bs[k].used && ptr + c.hdr + n < bs[k].end
      requires c.min <= n
      modifies this
      ensures Sound(c, bs, ram) && lfree == LowestFree(bs, c.size)
      ensures bs == Shrunk(c, old(bs), k, ptr + c.hdr + n)
    {
      SoundAt(c, bs, ram, k);
      var ptr2 := ptr + c.hdr + n;
      var mem2 := ram[ptr].next;
      ShrunkLowest(c, bs, k, ptr2);
      if !ram[mem2].used {
        if lfree == mem2 {
          lfree := ptr2;
        }
        MoveHeader(ptr, ptr2, k);
      } else if n + c.hdr + c.min <= mem2 - ptr - c.hdr {
        if ptr2 < lfree {
          lfree := ptr2;
        }
        SplitHeaders(ptr, ptr2, k);
      }
    }

    /** Move the header behind the block at ptr down to ptr2. */
    method MoveHeader(ptr: nat, ptr2: nat, ghost k: nat)
      requires Sound(c, bs, ram) && k + 1 < |bs| && bs[k].start == ptr && !bs[k + 1].used
      requires ptr + c.hdr + c.min <= ptr2 <= bs[k].end
      modifies this`ram, this`bs
      ensures Sound(c, bs, ram) && bs == Shift(old(bs), k, ptr2)
    {
      SoundAt(c, bs, ram, k);
      SoundAt(c, bs, ram, k + 1);
      SoundShift(c, bs, ram, k, ptr2);
      var next := ram[ram[ptr].next].next;
      ram := ram[ptr2 := Header(next, ptr, false)];
      ram := SetNext(ram, ptr, ptr2);
      if next != c.size {
        ram := SetPrev(ram, next, ptr2);
      }
      bs := Shift(bs, k, ptr2);
    }
  }

  lemma MarkFreeLowest(bs: Blocks, size: nat, least: nat, k: nat)
    requires Tiled(bs, size, least) && least > 0 && k < |bs| && bs[k].used
    ensures LowestFree(Mark(bs, k, false), size)
      == if bs[k].start < LowestFree(bs, size) then bs[k].start else LowestFree(bs, size)
  {
    var f := FirstFree(bs);
    if f < |bs| { BlocksDisjoint(bs, size, least, if f < k then f else k, if f < k then k else f); }
    NextStart(bs, size, least, k);
    FirstFreeIs(Mark(bs, k, false), if k < f then k else f);
  }

  lemma JoinLowest(bs: Blocks, size: nat, k: nat)
    requires k + 1 < |bs| && !bs[k].used && !bs[k + 1].used
    ensures LowestFree(Join(bs, k), size) == LowestFree(bs, size)
  {
    JoinAt(bs, k);
    FirstFreeIs(Join(bs, k), FirstFree(bs));
  }

  lemma LowestAtMost(bs: Blocks, size: nat, least: nat, k: nat)
    requires Tiled(bs, size, least) && k < |bs| && !bs[k].used
    ensures LowestFree(bs, size) <= bs[k].start
  {
    if FirstFree(bs) < k { BlocksDisjoint(bs, size, least, FirstFree(bs), k); }
  }

  lemma ShiftLowest(bs: Blocks, size: nat, least: nat, k: nat, mid: nat)
    requires Tiled(bs, size, least) && least > 0 && k + 1 < |bs| && bs[k].used && !bs[k + 1].used
    ensures LowestFree(Shift(bs, k, mid), size)
      == if LowestFree(bs, size) == bs[k].end then mid else LowestFree(bs, size)
  {
    var f := FirstFree(bs);
    FirstFreeIs(Shift(bs, k, mid), f);
    NextStart(bs, size, least, k);
    if f < k { DifferentStarts(bs, size, least, f, k + 1); }
  }

  lemma SplitLowest(bs: Blocks, size: nat, least: nat, k: nat, mid: nat)
    requires Tiled(bs, size, least) && least > 0 && k < |bs| && bs[k].used && bs[k].start < mid < bs[k].end
    ensures LowestFree(Split(bs, k, mid, true, false), size)
      == if mid < LowestFree(bs, size) then mid else LowestFree(bs, size)
  {
    var f := FirstFree(bs);
    NextStart(bs, size, least, k);
    if f < |bs| { BlocksDisjoint(bs, size, least, if f < k then f else k, if f < k then k else f); }
    SplitAt(bs, k, mid, true, false);
    FirstFreeIs(Split(bs, k, mid, true, false), if f < k then f else k + 1);
  }

  lemma ShrunkLowest(c: Config, bs: Blocks, k: nat, mid: nat)
    requires Tiled(bs, c.size, c.hdr + c.min) && c.hdr > 0 && k < |bs| && bs[k].used && bs[k].start < mid < bs[k].end
    ensures var low := LowestFree(bs, c.size);
      LowestFree(Shrunk(c, bs, k, mid), c.size) ==
        if k + 1 < |bs| && !bs[k + 1].used then (if low == bs[k].end then mid else low)
        else if mid + c.hdr + c.min <= bs[k].end && mid < low then mid else low
  {
    if k + 1 < |bs| && !bs[k + 1].used {
      ShiftLowest(bs, c.size, c.hdr + c.min, k, mid);
    } else {
      SplitLowest(bs, c.size, c.hdr + c.min, k, mid);
    }
  }

  lemma NoneFits(c: Config, bs: Blocks, n: nat, i: nat)
    requires Tiled(bs, c.size, c.hdr + c.min) && c.hdr > 0 && i <= |bs| && n <= c.size
    requires StartOf(bs, i, c.size) >= c.size - n
    requires forall j :: 0 <= j < i ==> !Fits(c, bs[j], n)
    ensures FirstFit(c, bs, n) == |bs|
  {
    var k := FirstFit(c, bs, n);
    if k < |bs| {
      if i < k { StartsIncrease(bs, c.size, c.hdr + c.min, i, k); }
      StartsIncrease(bs, c.size, c.hdr + c.min, k, |bs|);
    }
  }

  /** Only taking the lowest unused block moves lfree, and then nothing unused lies below. */
  lemma TakeLowest(c: Config, bs: Blocks, k: nat, n: nat) returns (r: Blocks)
    requires Tiled(bs, c.size, c.hdr + c.min) && c.hdr > 0
    requires k < |bs| && FirstFree(bs) <= k
    ensures r == Take(c, bs, k, n) && k < |r| && r[k].start == bs[k].start
    ensures bs[k].start == LowestFree(bs, c.size) ==> forall j :: 0 <= j < k ==> r[j].used
    ensures bs[k].start != LowestFree(bs, c.size) ==> LowestFree(r, c.size) == LowestFree(bs, c.size)
  {
    r := Take(c, bs, k, n);
    SplitAt(bs, k, bs[k].start + c.hdr + n, true, false);
    assert forall j :: 0 <= j < k ==> r[j] == bs[j];
    var f := FirstFree(bs);
    if f < k {
      DifferentStarts(bs, c.size, c.hdr + c.min, f, k);
      FirstFreeIs(r, f);
    }
  }

  // ------------------------------------------------------ what the clients see

  /** The used blocks after an allocation: those before, and the new one. */
  lemma TakeUsed(c: Config, bs: Blocks, k: nat, n: nat, b: Block)
    requires Sane(c) && GoodHeap(c, bs) && k < |bs| && Fits(c, bs[k], n) && b.used
    ensures var r := Take(c, bs, k, n);
      k < |r| && (b in r <==> b in bs || b == r[k])
      && r[k].start == bs[k].start && r[k].used && r[k].end >= r[k].start + c.hdr + n
  {
    SplitAt(bs, k, bs[k].start + c.hdr + n, true, false);
    SplitIn(bs, c.size, c.hdr + c.min, k, bs[k].start + c.hdr + n, true, false, b);
    MarkIn(bs, c.size, c.hdr + c.min, k, true, b);
  }

  /** The used blocks after a trim: the others, and the block with its possibly new end. */
  lemma ShrunkUsed(c: Config, bs: Blocks, k: nat, mid: nat, b: Block)
    requires Sane(c) && GoodHeap(c, bs) && k < |bs| && bs[k].used && bs[k].start < mid < bs[k].end && b.used
    ensures var r := Shrunk(c, bs, k, mid);
      k < |r| && (b in r <==> (b in bs && b != bs[k]) || b == r[k])
      && r[k].start == bs[k].start && r[k].used && r[k].end >= mid
  {
    SplitAt(bs, k, mid, true, false);
    SplitIn(bs, c.size, c.hdr + c.min, k, mid, true, false, b);
    if k + 1 < |bs| { ShiftIn(bs, c.size, c.hdr + c.min, k, mid, b); }
  }

  datatype Op = MallocOp(size: nat) | FreeOp(ptr: nat) | TrimOp(ptr: nat, size: nat)

  /** The heap and the allocations its clients hold, with the size each was promised. */
  datatype Client = Client(bs: Blocks, live: map<nat, nat>)

  /** The result of mem_malloc for any size. */
  function MallocResult(c: Config, bs: Blocks, size: nat): (Blocks, Option<nat>) {
    if size == 0 || Rounded(c, size) > c.size then (bs, None) else MallocSpec(c, bs, Rounded(c, size))
  }

  /** Clients free and trim only what they hold. */
  predicate Legal(cl: Client, op: Op) {
    match op
    case MallocOp(_) => true
    case FreeOp(ptr) => ptr in cl.live
    case TrimOp(ptr, _) => ptr in cl.live
  }

  ghost predicate ClientInv(c: Config, cl: Client) {
    Sane(c) && Held(ShapeOf(c), cl.bs, cl.live)
  }

  ghost function Next(c: Config, cl: Client, op: Op): Client
    requires Legal(cl, op) && ClientInv(c, cl)
  {
    match op
    case MallocOp(size) =>
      var (r, p) := MallocResult(c, cl.bs, size);
      Client(r, if p.Some? then cl.live[p.value := size] else cl.live)
    case FreeOp(ptr) =>
      Client(FreeSpec(c, cl.bs, Some(ptr)), cl.live - {ptr})
    case TrimOp(ptr, size) =>
      var k := Holder(ShapeOf(c), cl.bs, cl.live, ptr);
      if Rounded(c, size) > c.size || !TrimSpec(c, cl.bs, k, Rounded(c, size)).1 then cl
      else Client(TrimSpec(c, cl.bs, k, Rounded(c, size)).0, cl.live[ptr := size])
  }

  lemma MallocKeeps(c: Config, cl: Client, size: nat)
    requires ClientInv(c, cl)
    ensures ClientInv(c, Next(c, cl, MallocOp(size)))
  {
    var n := Rounded(c, size);
    var k := FirstFit(c, cl.bs, n);
    if size > 0 && n <= c.size && k < |cl.bs| {
      var r := Take(c, cl.bs, k, n);
      assert Next(c, cl, MallocOp(size)) == Client(r, cl.live[cl.bs[k].start + c.hdr := size]);
      TakeGood(c, cl.bs, k, n);
      TakeUsed(c, cl.bs, k, n, Block(0, 0, true));
      forall b: Block | b.used ensures b in r <==> b in cl.bs || b == r[k] {
        TakeUsed(c, cl.bs, k, n, b);
      }
      TakeKeeps(ShapeOf(c), cl.bs, cl.live, r, k, size);
    }
  }

  lemma FreeKeeps(c: Config, cl: Client, ptr: nat)
    requires ClientInv(c, cl) && ptr in cl.live
    ensures ClientInv(c, Next(c, cl, FreeOp(ptr)))
  {
    var b := HeldBlock(ShapeOf(c), cl.bs, cl.live, ptr);
    var j :| 0 <= j < |cl.bs| && cl.bs[j] == b;
    StartsIncrease(cl.bs, c.size, c.hdr + c.min, j, |cl.bs|);
    assert Next(c, cl, FreeOp(ptr)) == Client(Release(cl.bs, Holder(ShapeOf(c), cl.bs, cl.live, ptr)), cl.live - {ptr});
    ReleaseKeeps(ShapeOf(c), cl.bs, cl.live, ptr);
  }

  lemma TrimKeeps(c: Config, cl: Client, ptr: nat, size: nat)
    requires ClientInv(c, cl) && ptr in cl.live
    ensures ClientInv(c, Next(c, cl, TrimOp(ptr, size)))
  {
    var sh := ShapeOf(c);
    var b0 := HeldBlock(sh, cl.bs, cl.live, ptr);
    var k := Holder(sh, cl.bs, cl.live, ptr);
    var n := Rounded(c, size);
    var mid := cl.bs[k].start + c.hdr + n;
    if n <= c.size && mid <= cl.bs[k].end {
      var r := TrimSpec(c, cl.bs, k, n).0;
      assert Next(c, cl, TrimOp(ptr, size)) == Client(r, cl.live[ptr := size]);
      TrimGood(c, cl.bs, k, n);
      if mid < cl.bs[k].end { ShrunkUsed(c, cl.bs, k, mid, Block(0, 0, true)); }
      forall b: Block | b.used ensures b in r <==> (b in cl.bs && b != cl.bs[k]) || b == r[k] {
        if mid < cl.bs[k].end { ShrunkUsed(c, cl.bs, k, mid, b); }
      }
      forall b | b in cl.bs && b.used && b.start == cl.bs[k].start ensures b == cl.bs[k] {
        SameStart(sh, cl.bs, b, cl.bs[k]);
      }
      ReplaceKeeps(sh, cl.bs, cl.live, r, cl.live[ptr := size], Some(cl.bs[k]), Some(r[k]));
    }
  }

  /** A run: the states a sequence of legal operations goes through from mem_init. */
  ghost predicate IsRun(c: Config, run: seq<Client>, ops: seq<Op>) {
    && |run| == |ops| + 1 && run[0] == Client([Block(0, c.size, false)], map[])
    && forall i :: 0 <= i < |ops| ==> IsStep(c, run, ops, i)
  }

  ghost predicate IsStep(c: Config, run: seq<Client>, ops: seq<Op>, i: nat)
    requires i < |ops| < |run|
  {
    Legal(run[i], ops[i]) && (ClientInv(c, run[i]) ==> run[i + 1] == Next(c, run[i], ops[i]))
  }

  lemma {:induction false} RunKeeps(c: Config, run: seq<Client>, ops: seq<Op>, i: nat)
    requires Sane(c) && IsRun(c, run, ops) && i < |run|
    ensures ClientInv(c, run[i])
  {
    if i == 0 {
      StartKeeps(ShapeOf(c));
    } else {
      RunKeeps(c, run, ops, i - 1);
      assert IsStep(c, run, ops, i - 1);
      match ops[i - 1]
      case MallocOp(size) => MallocKeeps(c, run[i - 1], size);
      case FreeOp(ptr) => FreeKeeps(c, run[i - 1], ptr);
      case TrimOp(ptr, size) => TrimKeeps(c, run[i - 1], ptr, size);
    }
  }

  /** In every run, two live allocations never overlap, nor does one overlap a header. */
  lemma LiveDisjoint(c: Config, run: seq<Client>, ops: seq<Op>, i: nat, p: nat, q: nat)
    requires Sane(c) && IsRun(c, run, ops) && i < |run|
    requires p in run[i].live && q in run[i].live && p < q
    ensures c.hdr <= p && p + run[i].live[p] + c.hdr <= q && q + run[i].live[q] <= c.size
  {
    RunKeeps(c, run, ops, i);
    HeldDisjoint(ShapeOf(c), run[i].bs, run[i].live, p, q);
  }

  /** In every run, an allocation fails exactly when no unused block has room for it. */
  lemma MallocFailsExactly(c: Config, run: seq<Client>, ops: seq<Op>, i: nat, size: nat)
    requires Sane(c) && IsRun(c, run, ops) && i < |run| && size > 0
    ensures MallocResult(c, run[i].bs, size).1 == None <==>
      forall b :: b in run[i].bs && !b.used ==> b.end - b.start < c.hdr + Rounded(c, size)
  {
    RunKeeps(c, run, ops, i);
    var bs := run[i].bs;
    var n := Rounded(c, size);
    var k := FirstFit(c, bs, n);
    if k < |bs| {
      assert bs[k] in bs;
      StartsIncrease(bs, c.size, c.hdr + c.min, k, |bs|);
    } else {
      forall b | b in bs && !b.used ensures b.end - b.start < c.hdr + n {
        var j :| 0 <= j < |bs| && bs[j] == b;
        assert !Fits(c, bs[j], n);
      }
    }
    if n > c.size {
      forall b | b in bs ensures b.end - b.start < c.hdr + n {
        var j :| 0 <= j < |bs| && bs[j] == b;
        StartsIncrease(bs, c.size, c.hdr + c.min, j, |bs|);
      }
    }
  }

  // -------------------------------------------------------- how much an operation takes

  lemma TakeCarves(c: Config, bs: Blocks, k: nat, n: nat) returns (u: Block)
    requires Sane(c) && GoodHeap(c, bs) && k < |bs| && Fits(c, bs[k], n)
    ensures Carved(bs, Take(c, bs, k, n), bs[k], u, c.hdr + n, c.hdr + c.min)
  {
    if bs[k].end - bs[k].start - c.hdr >= n + c.hdr + c.min {
      u := Block(bs[k].start, bs[k].start + c.hdr + n, true);
      CarvedBySplit(bs, c.size, c.hdr + c.min, k, c.hdr + n, c.hdr + c.min);
    } else {
      u := bs[k].(used := true);
      CarvedWhole(bs, c.size, c.hdr + c.min, k, c.hdr + n, c.hdr + c.min);
    }
  }

  lemma FirstFitIsLowest(c: Config, bs: Blocks, n: nat, a: Block)
    requires Sane(c) && GoodHeap(c, bs) && a in bs && Fits(c, a, n)
    ensures var k := FirstFit(c, bs, n); k < |bs| && bs[k].start <= a.start
  {
    var k := FirstFit(c, bs, n);
    var j :| 0 <= j < |bs| && bs[j] == a;
    if k != j { StartsIncrease(bs, c.size, c.hdr + c.min, k, j); }
  }

  /** mem_malloc carves what it hands out from the beginning of an unused block, the lowest that had room,
      and takes less than another header and minimal block more than it was asked for. */
  lemma MallocCarves(c: Config, cl: Client, size: nat) returns (b: Block, u: Block)
    requires ClientInv(c, cl) && MallocResult(c, cl.bs, size).1.Some?
    ensures MallocResult(c, cl.bs, size).1 == Some(b.start + c.hdr)
    ensures Carved(cl.bs, MallocResult(c, cl.bs, size).0, b, u, c.hdr + Rounded(c, size), c.hdr + c.min)
    ensures forall a :: a in cl.bs && !a.used && a.end - a.start >= c.hdr + Rounded(c, size) ==> b.start <= a.start
  {
    var n := Rounded(c, size);
    var k := FirstFit(c, cl.bs, n);
    b := cl.bs[k];
    u := TakeCarves(c, cl.bs, k, n);
    forall a | a in cl.bs && !a.used && a.end - a.start >= c.hdr + n ensures b.start <= a.start {
      FirstFitIsLowest(c, cl.bs, n, a);
    }
  }

  /** What a trim of the used block b to `need` bytes, header included, makes of the heap: the block ends
      less than `slack` behind that, exactly there if an unused block follows it, what it gives up is
      unused, and the other used blocks are as before. */
  ghost predicate Trimmed(bs: Blocks, r: Blocks, b: Block, u: Block, need: nat, slack: nat) {
    && b in bs && b.used && u.used && u.start == b.start && u.end <= b.end
    && b.start + need <= u.end < b.start + need + slack
    && (u.end < b.end || (exists a :: a in bs && !a.used && a.start == b.end) ==> u.end == b.start + need)
    && (u.end < b.end ==> exists f :: f in r && !f.used && f.start == u.end && b.end <= f.end)
    && forall a: Block :: a.used ==> (a in r <==> (a in bs && a != b) || a == u)
  }

  /** Only an unused block at the next position begins where block k ends. */
  lemma NextUnused(bs: Blocks, size: nat, least: nat, k: nat)
    requires Tiled(bs, size, least) && least > 0 && k < |bs|
    ensures (exists a :: a in bs && !a.used && a.start == bs[k].end) <==> k + 1 < |bs| && !bs[k + 1].used
  {
    NextStart(bs, size, least, k);
    assert BlockOk(bs, size, least, k);
    if a :| a in bs && !a.used && a.start == bs[k].end {
      var j :| 0 <= j < |bs| && bs[j] == a;
      if j != k { DifferentStarts(bs, size, least, j, k); }
    }
    if k + 1 < |bs| && !bs[k + 1].used { assert bs[k + 1] in bs; }
  }

  /** What is behind the new end is unused. */
  lemma ShrunkRest(c: Config, bs: Blocks, k: nat, mid: nat)
    requires Sane(c) && GoodHeap(c, bs) && k < |bs| && bs[k].start + c.hdr + c.min <= mid < bs[k].end
    ensures var r := Shrunk(c, bs, k, mid);
      && k < |r|
      && (r[k].end < bs[k].end ==> exists f :: f in r && !f.used && f.start == r[k].end && bs[k].end <= f.end)
      && r[k].end == if (k + 1 < |bs| && !bs[k + 1].used) || mid + c.hdr + c.min <= bs[k].end then mid else bs[k].end
  {
    var r := Shrunk(c, bs, k, mid);
    SplitAt(bs, k, mid, true, false);
    if k + 1 < |bs| && !bs[k + 1].used {
      NextStart(bs, c.size, c.hdr + c.min, k);
      assert BlockOk(bs, c.size, c.hdr + c.min, k + 1);
      assert r[k + 1] in r;
    } else if mid + c.hdr + c.min <= bs[k].end {
      assert r[k + 1] in r;
    }
  }

  lemma ShrunkTrims(c: Config, bs: Blocks, k: nat, need: nat)
    requires Sane(c) && GoodHeap(c, bs) && k < |bs| && bs[k].used && c.hdr + c.min <= need && bs[k].start + need < bs[k].end
    ensures var r := Shrunk(c, bs, k, bs[k].start + need);
      k < |r| && Trimmed(bs, r, bs[k], r[k], need, c.hdr + c.min)
  {
    var mid := bs[k].start + need;
    var r := Shrunk(c, bs, k, mid);
    ShrunkUsed(c, bs, k, mid, Block(0, 0, true));
    forall a: Block | a.used ensures a in r <==> (a in bs && a != bs[k]) || a == r[k] { ShrunkUsed(c, bs, k, mid, a); }
    ShrunkRest(c, bs, k, mid);
    NextUnused(bs, c.size, c.hdr + c.min, k);
  }

  lemma TrimmedSame(bs: Blocks, b: Block, need: nat, slack: nat)
    requires b in bs && b.used && b.start + need == b.end && slack > 0
    ensures Trimmed(bs, bs, b, b, need, slack)
  {
  }

  /** The blocks that a trim of block k to n bytes leaves. */
  lemma TrimSpecTrims(c: Config, bs: Blocks, k: nat, n: nat) returns (u: Block)
    requires Sane(c) && GoodHeap(c, bs) && k < |bs| && bs[k].used && c.min <= n
    ensures var (r, ok) := TrimSpec(c, bs, k, n);
      && (ok <==> bs[k].start + c.hdr + n <= bs[k].end)
      && if ok then Trimmed(bs, r, bs[k], u, c.hdr + n, c.hdr + c.min) else r == bs
  {
    u := bs[k];
    if bs[k].start + c.hdr + n < bs[k].end {
      ShrunkTrims(c, bs, k, c.hdr + n);
      u := Shrunk(c, bs, k, bs[k].start + c.hdr + n)[k];
    } else if bs[k].start + c.hdr + n == bs[k].end {
      TrimmedSame(bs, u, c.hdr + n, c.hdr + c.min);
    }
  }

  /** mem_trim of a live allocation gives back what lies behind the size it is trimmed to; a size that it
      does not have changes nothing. */
  lemma TrimGivesBack(c: Config, cl: Client, ptr: nat, size: nat) returns (b: Block, u: Block)
    requires ClientInv(c, cl) && ptr in cl.live
    ensures b in cl.bs && b.used && b.start + c.hdr == ptr
    ensures var cl', need := Next(c, cl, TrimOp(ptr, size)), c.hdr + Rounded(c, size);
      if b.start + need > b.end then cl' == cl
      else cl'.live == cl.live[ptr := size] && Trimmed(cl.bs, cl'.bs, b, u, need, c.hdr + c.min)
  {
    var sh := ShapeOf(c);
    b := HeldBlock(sh, cl.bs, cl.live, ptr);
    var k, n := Holder(sh, cl.bs, cl.live, ptr), Rounded(c, size);
    StartsIncrease(cl.bs, c.size, c.hdr + c.min, k, |cl.bs|);
    u := TrimSpecTrims(c, cl.bs, k, n);
  }

  /** Where request i begins when the requests before it lie one behind the other. */
  function PackedTo(c: Config, sizes: seq<nat>, i: nat): nat
    requires i <= |sizes|
  {
    if i == 0 then 0 else PackedTo(c, sizes, i - 1) + c.hdr + Rounded(c, sizes[i - 1])
  }

  /** The first i requests lie one behind the other, and the rest is one unused block. */
  ghost predicate Packed(c: Config, sizes: seq<nat>, i: nat, bs: Blocks)
    requires i <= |sizes|
  {
    && |bs| == i + 1 && bs[i] == Block(PackedTo(c, sizes, i), c.size, false)
    && forall j :: 0 <= j < i ==> bs[j] == Block(PackedTo(c, sizes, j), PackedTo(c, sizes, j + 1), true)
  }

  lemma {:induction false} PackedGrows(c: Config, sizes: seq<nat>, i: nat, j: nat)
    requires i <= j <= |sizes|
    ensures PackedTo(c, sizes, i) <= PackedTo(c, sizes, j)
    decreases j
  {
    if i < j { PackedGrows(c, sizes, i, j - 1); }
  }

  lemma {:induction false} FirstFitIs(c: Config, bs: Blocks, n: nat, k: nat)
    requires k < |bs| && Fits(c, bs[k], n) && forall j :: 0 <= j < k ==> bs[j].used
    ensures FirstFit(c, bs, n) == k
    decreases k
  {
    if k > 0 { FirstFitIs(c, bs[1..], n, k - 1); }
  }

  /** The next request, when there is room for it. */
  lemma PackedNext(c: Config, sizes: seq<nat>, i: nat, bs: Blocks)
    requires Sane(c) && i < |sizes| && sizes[i] > 0 && Packed(c, sizes, i, bs) && PackedTo(c, sizes, i + 1) <= c.size
    ensures MallocResult(c, bs, sizes[i]).1 == Some(PackedTo(c, sizes, i) + c.hdr)
    ensures PackedTo(c, sizes, i + 1) + c.hdr + c.min <= c.size ==> Packed(c, sizes, i + 1, MallocResult(c, bs, sizes[i]).0)
  {
    var n := Rounded(c, sizes[i]);
    assert PackedTo(c, sizes, i + 1) == PackedTo(c, sizes, i) + c.hdr + n;
    assert Fits(c, bs[i], n);
    forall j | 0 <= j < i ensures bs[j].used { assert bs[j] == Block(PackedTo(c, sizes, j), PackedTo(c, sizes, j + 1), true); }
    FirstFitIs(c, bs, n, i);
    SplitAt(bs, i, bs[i].start + c.hdr + n, true, false);
  }

  lemma PackedStep(c: Config, sizes: seq<nat>, i: nat, cl: Client)
    requires ClientInv(c, cl) && i + 1 < |sizes| && sizes[i] > 0 && Packed(c, sizes, i, cl.bs)
    requires PackedTo(c, sizes, |sizes|) <= c.size
    ensures Packed(c, sizes, i + 1, Next(c, cl, MallocOp(sizes[i])).bs)
  {
    PackedGrows(c, sizes, i + 1, |sizes|);
    PackedGrows(c, sizes, i + 2, |sizes|);
    PackedNext(c, sizes, i, cl.bs);
  }

  lemma {:induction false} PackedRun(c: Config, sizes: seq<nat>, i: nat) returns (run: seq<Client>, ops: seq<Op>)
    requires Sane(c) && i < |sizes| && (forall j :: 0 <= j < |sizes| ==> sizes[j] > 0) && PackedTo(c, sizes, |sizes|) <= c.size
    ensures IsRun(c, run, ops) && |ops| == i && (forall j :: 0 <= j < i ==> ops[j] == MallocOp(sizes[j]))
    ensures Packed(c, sizes, i, run[i].bs)
    decreases i
  {
    if i == 0 {
      run, ops := [Client([Block(0, c.size, false)], map[])], [];
    } else {
      run, ops := PackedRun(c, sizes, i - 1);
      var cl := run[i - 1];
      run, ops := OneMore(c, run, ops, MallocOp(sizes[i - 1]));
      PackedStep(c, sizes, i - 1, cl);
    }
  }

  /** A new heap meets every sequence of requests that fits in it with its headers: each gets the memory
      right behind the one before. */
  lemma RequestsMet(c: Config, sizes: seq<nat>, i: nat) returns (run: seq<Client>, ops: seq<Op>)
    requires Sane(c) && i < |sizes| && (forall j :: 0 <= j < |sizes| ==> sizes[j] > 0) && PackedTo(c, sizes, |sizes|) <= c.size
    ensures IsRun(c, run, ops) && |ops| == i && (forall j :: 0 <= j < i ==> ops[j] == MallocOp(sizes[j]))
    ensures MallocResult(c, run[i].bs, sizes[i]).1 == Some(PackedTo(c, sizes, i) + c.hdr)
  {
    run, ops := PackedRun(c, sizes, i);
    PackedGrows(c, sizes, i + 1, |sizes|);
    PackedNext(c, sizes, i, run[i].bs);
  }

  lemma OneMore(c: Config, run: seq<Client>, ops: seq<Op>, op: Op) returns (run': seq<Client>, ops': seq<Op>)
    requires Sane(c) && IsRun(c, run, ops) && Legal(run[|run| - 1], op)
    ensures ClientInv(c, run[|run| - 1]) && IsRun(c, run', ops') && ops' == ops + [op]
    ensures run' == run + [Next(c, run[|run| - 1], op)]
  {
    RunKeeps(c, run, ops, |run| - 1);
    run', ops' := run + [Next(c, run[|run| - 1], op)], ops + [op];
    forall i | 0 <= i < |ops'| ensures IsStep(c, run', ops', i) {
      if i < |ops| { assert IsStep(c, run, ops, i); }
    }
  }

  /** When the clients hold nothing any more, the heap is as mem_init left it. */
  lemma NothingLeaks(c: Config, run: seq<Client>, ops: seq<Op>, i: nat)
    requires Sane(c) && IsRun(c, run, ops) && i < |run| && run[i].live == map[]
    ensures run[i].bs == [Block(0, c.size, false)]
  {
    RunKeeps(c, run, ops, i);
    NothingHeld(ShapeOf(c), run[i].bs, run[i].live);
  }

  lemma MidAligned(c: Config, bs: Blocks, k: nat, n: nat)
    requires AlignedConfig(c) && Aligned(bs) && k < |bs| && n % 4 == 0
    ensures (bs[k].start + c.hdr + n) % 4 == 0
  {
  }

  lemma {:induction false} RunAligned(c: Config, run: seq<Client>, ops: seq<Op>, i: nat)
    requires Sane(c) && AlignedConfig(c) && IsRun(c, run, ops) && i < |run|
    ensures Aligned(run[i].bs)
  {
    if i > 0 {
      RunAligned(c, run, ops, i - 1);
      RunKeeps(c, run, ops, i - 1);
      assert IsStep(c, run, ops, i - 1);
      var cl := run[i - 1];
      match ops[i - 1]
      case MallocOp(size) =>
        var k := FirstFit(c, cl.bs, Rounded(c, size));
        if k < |cl.bs| { TakeAligned(c, cl.bs, k, Rounded(c, size)); }
      case FreeOp(ptr) => ReleaseAligned(cl.bs, Holder(ShapeOf(c), cl.bs, cl.live, ptr));
      case TrimOp(ptr, size) => TrimAligned(c, cl.bs, Holder(ShapeOf(c), cl.bs, cl.live, ptr), Rounded(c, size));
    }
  }

  lemma TakeAligned(c: Config, bs: Blocks, k: nat, n: nat)
    requires AlignedConfig(c) && Aligned(bs) && k < |bs| && n % 4 == 0
    ensures Aligned(Take(c, bs, k, n))
  {
    MidAligned(c, bs, k, n);
    SplitAligned(bs, k, bs[k].start + c.hdr + n, true, false);
  }

  lemma TrimAligned(c: Config, bs: Blocks, k: nat, n: nat)
    requires AlignedConfig(c) && Aligned(bs) && k < |bs| && n % 4 == 0
    ensures Aligned(TrimSpec(c, bs, k, n).0)
  {
    var mid := bs[k].start + c.hdr + n;
    MidAligned(c, bs, k, n);
    SplitAligned(bs, k, mid, true, false);
    if k + 1 < |bs| { ShiftAligned(bs, k, mid); }
  }

  /** In every run, what mem_malloc returned is aligned. */
  lemma LiveAligned(c: Config, run: seq<Client>, ops: seq<Op>, i: nat, p: nat)
    requires Sane(c) && AlignedConfig(c) && IsRun(c, run, ops) && i < |run| && p in run[i].live
    ensures p % 4 == 0
  {
    RunAligned(c, run, ops, i);
    RunKeeps(c, run, ops, i);
    MidAligned(c, run[i].bs, Holder(ShapeOf(c), run[i].bs, run[i].live, p), 0);
  }
}
