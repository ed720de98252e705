/** Bump and arena allocation: an aligned cursor that only moves forward inside malloc'ed blocks. */
module Arena {
  import opened Bits
  import opened Wrappers

  /** One allocation since the last reset; `block` is the index of the block it was cut from. */
  datatype Region = Region(start: nat, size: nat, align: nat, block: nat)

  /** The two requests the source answers with a null pointer before looking at any block. */
  predicate BadRequest(size: nat, align: nat)
    requires align < WORD
  {
    size == 0 || align == 0 || And(align, align - 1) != 0
  }

  /** Neither rounding the cursor up nor adding the size passes the end of the address space. */
  predicate StaysInSpace(cursor: nat, size: nat, align: nat)
    requires align < WORD
  {
    && cursor + align - 1 < WORD
    && (align > 0 ==> AlignUp(cursor, align) + size < WORD)
  }

  /** The cursor after a placement, and the test whether that lies inside the block. */
  function CursorAfter(cursor: nat, size: nat, align: nat): (r: nat)
    requires cursor < WORD && size < WORD && 1 <= align < WORD
    ensures r < WORD
  {
    AlignUpFits(cursor, align);
    WordAdd(AlignUp(cursor, align), size)
  }

  predicate SeemsToFit(cursor: nat, end: nat, size: nat, align: nat)
    requires cursor < WORD && size < WORD && 1 <= align < WORD
  {
    CursorAfter(cursor, size, align) <= end
  }

  predicate Apart(r: Region, s: Region) {
    r.start + r.size <= s.start || s.start + s.size <= r.start
  }

  ghost predicate PairwiseApart(rs: seq<Region>) {
    forall i, j | 0 <= i < j < |rs| :: Apart(rs[i], rs[j])
  }

  predicate Aligned(r: Region) {
    r.size > 0 && r.align > 0 && r.start % r.align == 0
  }

  ghost predicate AllAligned(rs: seq<Region>) {
    forall i | 0 <= i < |rs| :: Aligned(rs[i])
  }

  lemma {:induction false} AndBelow(x: nat, y: nat)
    ensures And(x, y) <= x
  {
    if x == 0 || y == 0 {
    } else {
      AndBelow(x / 2, y / 2);
    }
  }

  lemma AlignUpFits(addr: nat, align: nat)
    requires 1 <= align < WORD
    ensures AlignUp(addr, align) < WORD
  {
    AndBelow((addr + align - 1) % WORD, WORD - align);
  }

  lemma AlignIsPower(size: nat, align: nat) returns (k: nat)
    requires align < WORD && !BadRequest(size, align)
    ensures align == Pow2(k)
  {
    PowerOfTwoTest(align);
    k :| align == Pow2(k);
  }

  /** A request is bad exactly when it asks for nothing or for an alignment that is no power of two. */
  lemma BadRequestIff(size: nat, align: nat)
    requires align < WORD
    ensures BadRequest(size, align) <==> size == 0 || !IsPow2(align)
  {
    if align > 0 {
      PowerOfTwoTest(align);
    }
  }

  /** The mask formula picks the least aligned address at or above the cursor when the rounding does not wrap. */
  lemma PlacementIsLeast(cursor: nat, size: nat, align: nat)
    requires align < WORD && !BadRequest(size, align) && cursor + align - 1 < WORD
    ensures IsLeastMultiple(AlignUp(cursor, align), cursor, align)
  {
    var k := AlignIsPower(size, align);
    AlignUpIsLeast(cursor, k);
  }

  /** When it wraps, the formula yields address 0. */
  lemma PlacementWraps(cursor: nat, size: nat, align: nat)
    requires align < WORD && !BadRequest(size, align) && cursor < WORD <= cursor + align - 1
    ensures AlignUp(cursor, align) == 0
  {
    var k := AlignIsPower(size, align);
    AlignUpWraps(cursor, k);
  }

  class Bump {
    var base: nat
    var cursor: nat
    var end: nat
    ghost var regions: seq<Region>

    ghost predicate Valid()
      reads this
    {
      && base <= cursor <= end < WORD
      && PairwiseApart(regions) && AllAligned(regions)
      && (forall i | 0 <= i < |regions| :: base <= regions[i].start && regions[i].start + regions[i].size <= cursor)
    }

    /** `at` is where malloc put the chunk; a zero capacity takes none and leaves a null base. */
    constructor (capacity: nat, at: nat)
      requires capacity > 0 ==> at > 0 && at + capacity < WORD
      ensures Valid() && regions == [] && cursor == base && end == base + capacity
      ensures base == if capacity == 0 then 0 else at
    {
      base := if capacity == 0 then 0 else at;
      cursor := if capacity == 0 then 0 else at;
      end := if capacity == 0 then 0 else at + capacity;
      regions := [];
    }

    /**
     Refuses exactly a bad request, a zero-capacity chunk and a placement that the end test rejects; 0 is the null
     pointer. Afterwards the regions are disjoint, aligned and inside if and only if neither sum wrapped.
     */
    method Allocate(size: nat, align: nat) returns (p: nat)
      requires Valid() && size < WORD && align < WORD
      modifies this`cursor, this`regions
      ensures BadRequest(size, align) || base == 0 || !SeemsToFit(old(cursor), end, size, align) ==>
                p == 0 && unchanged(this)
      ensures !BadRequest(size, align) && base != 0 && SeemsToFit(old(cursor), end, size, align) ==>
                && p == AlignUp(old(cursor), align) && cursor == CursorAfter(old(cursor), size, align)
                && regions == old(regions) + [Region(p, size, align, 0)]
                && (Valid() <==> StaysInSpace(old(cursor), size, align))
                && (Valid() ==> p > 0 && IsLeastMultiple(p, old(cursor), align) && cursor == p + size <= end)
    {
      if size == 0 || align == 0 || And(align, align - 1) != 0 || base == 0 {
        return 0;
      }
      p := AlignUp(cursor, align);
      var next := CursorAfter(cursor, size, align);
      if next > end {
        return 0;
      }
      if cursor + align - 1 < WORD {
        PlacementIsLeast(cursor, size, align);
      } else {
        PlacementWraps(cursor, size, align);
      }
      cursor, regions := next, regions + [Region(p, size, align, 0)];
      assert regions[|regions| - 1] == Region(p, size, align, 0);
    }

    method Reset()
      requires Valid()
      modifies this`cursor, this`regions
      ensures Valid() && cursor == base && regions == []
    {
      cursor, regions := base, [];
    }
  }

  datatype Block = Block(base: nat, cursor: nat, end: nat, size: nat)

  predicate BlockOk(b: Block) {
    0 < b.base <= b.cursor <= b.end < WORD && b.end == b.base + b.size
  }

  predicate Disjoint(a: Block, b: Block) {
    a.end <= b.base || b.end <= a.base
  }

  function SumSizes(blocks: seq<Block>): nat {
    if blocks == [] then 0 else SumSizes(blocks[..|blocks| - 1]) + blocks[|blocks| - 1].size
  }

  function Used(blocks: seq<Block>): int {
    if blocks == [] then 0
    else Used(blocks[..|blocks| - 1]) + blocks[|blocks| - 1].cursor - blocks[|blocks| - 1].base
  }

  ghost predicate BlocksOk(blocks: seq<Block>) {
    && (forall i | 0 <= i < |blocks| :: BlockOk(blocks[i]))
    && (forall i, j | 0 <= i < j < |blocks| :: Disjoint(blocks[i], blocks[j]))
  }

  predicate Inside(r: Region, blocks: seq<Block>) {
    && r.block < |blocks|
    && blocks[r.block].base <= r.start && r.start + r.size <= blocks[r.block].cursor
  }

  ghost predicate AllInside(rs: seq<Region>, blocks: seq<Block>) {
    forall i | 0 <= i < |rs| :: Inside(rs[i], blocks)
  }

  /** Cutting a region at or above the last block's cursor keeps every region inside its block and apart. */
  lemma CutKeeps(blocks: seq<Block>, rs: seq<Region>, r: Region)
    requires blocks != [] && BlocksOk(blocks) && AllInside(rs, blocks) && PairwiseApart(rs)
    requires r.block == |blocks| - 1 && blocks[r.block].cursor <= r.start && r.start + r.size <= blocks[r.block].end
    ensures var cut := blocks[r.block := blocks[r.block].(cursor := r.start + r.size)];
            BlocksOk(cut) && AllInside(rs + [r], cut) && PairwiseApart(rs + [r])
    ensures var cut := blocks[r.block := blocks[r.block].(cursor := r.start + r.size)];
            SumSizes(cut) == SumSizes(blocks)
  {
    var cut := blocks[r.block := blocks[r.block].(cursor := r.start + r.size)];
    forall i | 0 <= i < |rs| ensures Inside(rs[i], cut) && Apart(rs[i], r) {
      assert Inside(rs[i], blocks);
      assert rs[i].block < r.block ==> Disjoint(blocks[rs[i].block], blocks[r.block]);
    }
    assert cut[..|cut| - 1] == blocks[..|blocks| - 1];
  }

  /** The size of a new block, as the source adds it up in words. */
  function NewBlockSize(blockSize: nat, size: nat, align: nat): (n: nat)
    requires blockSize < WORD && size < WORD && align < WORD
    ensures n < WORD
  {
    var needed := WordAdd(size, if align > 1 then align - 1 else 0);
    if blockSize > needed then blockSize else needed
  }

  /** The new block, which malloc put at `at`, after its first placement. */
  function FreshBlock(blockSize: nat, size: nat, align: nat, at: nat): Block
    requires blockSize < WORD && size < WORD && 1 <= align < WORD && at < WORD
  {
    var n := NewBlockSize(blockSize, size, align);
    Block(at, CursorAfter(at, size, align), at + n, n)
  }

  /** A block fresh from malloc covers the request and the worst alignment padding when that sum does not wrap. */
  lemma FreshBlockFits(at: nat, blockSize: nat, size: nat, align: nat)
    requires blockSize < WORD && size < WORD && align < WORD && !BadRequest(size, align) && size + align - 1 < WORD
    requires at + NewBlockSize(blockSize, size, align) < WORD
    ensures AlignUp(at, align) + size <= at + NewBlockSize(blockSize, size, align) && StaysInSpace(at, size, align)
    ensures NewBlockSize(blockSize, size, align) > blockSize ==>
              NewBlockSize(blockSize, size, align) == size + align - 1
  {
    PlacementIsLeast(at, size, align);
  }

  /** When it wraps, so does the placement in any block. */
  lemma FreshBlockEscapes(at: nat, size: nat, align: nat)
    requires 0 < at < WORD && size < WORD && align < WORD && !BadRequest(size, align) && size + align - 1 >= WORD
    ensures !StaysInSpace(at, size, align)
  {
    if at + align - 1 < WORD {
      PlacementIsLeast(at, size, align);
      var p := AlignUp(at, align);
      if p < align {
        SmallMod(p, align);
      }
    }
  }

  // ---- Blocks that do not overlap fit the address space together ----

  ghost function Interval(lo: nat, hi: nat): (r: set<nat>)
    ensures forall a: nat :: a in r <==> lo <= a < hi
    decreases hi - lo
  {
    if lo >= hi then {} else Interval(lo, hi - 1) + {hi - 1}
  }

  ghost function AllAddresses(blocks: seq<Block>): set<nat> {
    if blocks == [] then {}
    else AllAddresses(blocks[..|blocks| - 1]) + Interval(blocks[|blocks| - 1].base, blocks[|blocks| - 1].end)
  }

  lemma {:induction false} IntervalSize(lo: nat, hi: nat)
    requires lo <= hi
    ensures |Interval(lo, hi)| == hi - lo
    decreases hi - lo
  {
    if lo == hi {
    } else {
      IntervalSize(lo, hi - 1);
    }
  }

  lemma {:induction false} InAllAddresses(blocks: seq<Block>, a: nat)
    ensures a in AllAddresses(blocks) <==> exists i | 0 <= i < |blocks| :: blocks[i].base <= a < blocks[i].end
    decreases |blocks|
  {
    if blocks == [] {
    } else {
      var n := |blocks| - 1;
      InAllAddresses(blocks[..n], a);
      assert blocks[..n] + [blocks[n]] == blocks;
    }
  }

  lemma {:induction false} SumIsAddresses(blocks: seq<Block>)
    requires BlocksOk(blocks)
    ensures SumSizes(blocks) == |AllAddresses(blocks)| && forall a | a in AllAddresses(blocks) :: 0 < a < WORD
    decreases |blocks|
  {
    if blocks == [] {
    } else {
      var n := |blocks| - 1;
      SumIsAddresses(blocks[..n]);
      assert BlockOk(blocks[n]);
      IntervalSize(blocks[n].base, blocks[n].end);
      forall a | a in AllAddresses(blocks[..n]) ensures a !in Interval(blocks[n].base, blocks[n].end) {
        InAllAddresses(blocks[..n], a);
        var i :| 0 <= i < n && blocks[..n][i].base <= a < blocks[..n][i].end;
        assert Disjoint(blocks[i], blocks[n]);
      }
    }
  }

  /** So the running total of block sizes never wraps. */
  lemma TotalFitsSpace(blocks: seq<Block>)
    requires BlocksOk(blocks)
    ensures SumSizes(blocks) < WORD
  {
    SumIsAddresses(blocks);
    FewerThan(AllAddresses(blocks), WORD);
  }

  lemma FewerThan(x: set<nat>, hi: nat)
    requires hi > 0 && forall a | a in x :: 0 < a < hi
    ensures |x| < hi
  {
    IntervalSize(1, hi);
    SubsetSize(x, Interval(1, hi));
  }

  lemma {:induction false} SubsetSize(x: set<nat>, y: set<nat>)
    requires x <= y
    ensures |x| <= |y|
    decreases x
  {
    if x == {} {
    } else {
      var a :| a in x;
      SubsetSize(x - {a}, y - {a});
    }
  }

  class ArenaAllocator {
    const blockSize: nat
    const maxBytes: nat
    var blocks: seq<Block>
    var total: nat
    ghost var regions: seq<Region>

    ghost predicate Valid()
      reads this
    {
      && blocks != [] && BlocksOk(blocks) && blocks[0].size == blockSize < WORD && maxBytes < WORD
      && total == SumSizes(blocks) && total <= (if blockSize > maxBytes then blockSize else maxBytes)
      && AllInside(regions, blocks) && AllAligned(regions) && PairwiseApart(regions)
    }

    /** malloc hands out `size` bytes at `at`, apart from every block still owned. */
    ghost predicate Mallocs(at: nat, size: nat)
      reads this
    {
      && at > 0 && at + size < WORD
      && forall i | 0 <= i < |blocks| :: Disjoint(blocks[i], Block(at, at, at + size, size))
    }

    constructor (blockSize: nat, maxBytes: nat, at: nat)
      requires at > 0 && at + blockSize < WORD && maxBytes < WORD
      ensures Valid() && regions == [] && this.blockSize == blockSize && this.maxBytes == maxBytes
      ensures blocks == [Block(at, at, at + blockSize, blockSize)] && total == blockSize
    {
      this.blockSize, this.maxBytes := blockSize, maxBytes;
      blocks, total, regions := [Block(at, at, at + blockSize, blockSize)], blockSize, [];
    }

    function Current(): (b: Block)
      reads this
      requires blocks != []
    {
      blocks[|blocks| - 1]
    }

    /** Whether the current block's test accepts the request. */
    predicate FitsCurrent(size: nat, align: nat)
      reads this
      requires blocks != [] && Current().cursor < WORD && size < WORD && 1 <= align < WORD
    {
      SeemsToFit(Current().cursor, Current().end, size, align)
    }

    /** Whether a request reaches the allocation of a new block. */
    predicate NeedsBlock(size: nat, align: nat)
      reads this
      requires blocks != [] && Current().cursor < WORD && blockSize < WORD && total < WORD
      requires size < WORD && align < WORD
    {
      && !BadRequest(size, align) && !FitsCurrent(size, align)
      && WordAdd(total, NewBlockSize(blockSize, size, align)) <= maxBytes
    }

    /**
     Serves from the current block, else from a new block, which malloc puts at `at`; 0 is the null pointer. Refuses
     exactly a bad request and a block that would take the total over `maxBytes`. Afterwards the regions are disjoint,
     aligned and inside, and the total is exact and bounded, if and only if the sums of that path did not wrap.
     */
    method Allocate(size: nat, align: nat, at: nat) returns (p: nat)
      requires Valid() && size < WORD && align < WORD
      requires NeedsBlock(size, align) ==> Mallocs(at, NewBlockSize(blockSize, size, align))
      modifies this`blocks, this`total, this`regions
      ensures BadRequest(size, align) || (!old(FitsCurrent(size, align)) && !old(NeedsBlock(size, align))) ==>
                p == 0 && unchanged(this)
      ensures !BadRequest(size, align) && old(FitsCurrent(size, align)) ==>
                && blocks == old(AfterCut(size, align)) && total == old(total)
                && p == AlignUp(old(Current().cursor), align)
                && regions == old(regions) + [Region(p, size, align, |blocks| - 1)]
                && (Valid() <==> StaysInSpace(old(Current().cursor), size, align))
                && (Valid() ==> p > 0 && IsLeastMultiple(p, old(Current().cursor), align))
      ensures old(NeedsBlock(size, align)) ==>
                && blocks == old(blocks) + [FreshBlock(blockSize, size, align, at)] && p == AlignUp(at, align)
                && total == old(total) + NewBlockSize(blockSize, size, align)
                && regions == old(regions) + [Region(p, size, align, |blocks| - 1)]
                && (Valid() <==> size + align - 1 < WORD)
                && (Valid() ==> p > 0 && IsLeastMultiple(p, at, align))
    {
      if size == 0 || align == 0 || And(align, align - 1) != 0 {
        return 0;
      }
      if FitsCurrent(size, align) {
        p := Cut(size, align);
        return;
      }
      var grown := NewBlockSize(blockSize, size, align);
      if WordAdd(total, grown) > maxBytes {
        return 0;
      }
      AddBlock(at, grown);
      p := CutFresh(size, align, at);
    }

    /** The first placement in a block just added. */
    method CutFresh(size: nat, align: nat, at: nat) returns (p: nat)
      requires Valid() && size < WORD && align < WORD && !BadRequest(size, align)
      requires var n := NewBlockSize(blockSize, size, align); Current() == Block(at, at, at + n, n)
      modifies this`blocks, this`regions
      ensures blocks == old(blocks)[..|old(blocks)| - 1] + [FreshBlock(blockSize, size, align, at)]
      ensures p == AlignUp(at, align)
      ensures regions == old(regions) + [Region(p, size, align, |blocks| - 1)]
      ensures Valid() <==> size + align - 1 < WORD
      ensures Valid() ==> p > 0 && IsLeastMultiple(p, at, align)
    {
      assert BlockOk(Current());
      if size + align - 1 < WORD {
        FreshBlockFits(at, blockSize, size, align);
      } else {
        FreshBlockEscapes(at, size, align);
      }
      p := Cut(size, align);
    }

    method AddBlock(at: nat, size: nat)
      requires Valid() && size < WORD && Mallocs(at, size) && WordAdd(total, size) <= maxBytes
      modifies this`blocks, this`total
      ensures Valid() && blocks == old(blocks) + [Block(at, at, at + size, size)] && total == old(total) + size
    {
      ghost var before := blocks;
      blocks := blocks + [Block(at, at, at + size, size)];
      assert blocks[..|blocks| - 1] == before;
      TotalFitsSpace(blocks);
      total := WordAdd(total, size);
      forall i | 0 <= i < |regions| ensures Inside(regions[i], blocks) {
        assert Inside(regions[i], before);
      }
    }

    /** The blocks with the current block's cursor moved over the placement. */
    function AfterCut(size: nat, align: nat): (r: seq<Block>)
      reads this
      requires blocks != [] && Current().cursor < WORD && size < WORD && 1 <= align < WORD
      ensures |r| == |blocks|
    {
      blocks[|blocks| - 1 := Current().(cursor := CursorAfter(Current().cursor, size, align))]
    }

    /** Moves the current block's cursor over the placement, whether or not that fits. */
    method Cut(size: nat, align: nat) returns (q: nat)
      requires Valid() && size < WORD && align < WORD && !BadRequest(size, align)
      modifies this`blocks, this`regions
      ensures q == AlignUp(old(Current().cursor), align)
      ensures blocks == old(AfterCut(size, align))
      ensures regions == old(regions) + [Region(q, size, align, |blocks| - 1)]
      ensures StaysInSpace(old(Current().cursor), size, align) && old(FitsCurrent(size, align)) ==>
                Valid() && q > 0 && IsLeastMultiple(q, old(Current().cursor), align)
      ensures !StaysInSpace(old(Current().cursor), size, align) ==> !Valid()
    {
      var last := |blocks| - 1;
      assert BlockOk(blocks[last]);
      q := AlignUp(blocks[last].cursor, align);
      var r := Region(q, size, align, last);
      var next := CursorAfter(blocks[last].cursor, size, align);
      ghost var before := blocks;
      if blocks[last].cursor + align - 1 < WORD {
        PlacementIsLeast(blocks[last].cursor, size, align);
        if q + size <= blocks[last].end {
          CutKeeps(blocks, regions, r);
        }
      } else {
        PlacementWraps(blocks[last].cursor, size, align);
      }
      blocks := blocks[last := blocks[last].(cursor := next)];
      regions := regions + [r];
      assert regions[|regions| - 1] == r;
      assert !StaysInSpace(before[last].cursor, size, align) ==> !Inside(r, blocks);
    }

    /** Frees all blocks but the first and rewinds it. */
    method Reset()
      requires Valid()
      modifies this`blocks, this`total, this`regions
      ensures Valid() && regions == [] && total == blockSize
      ensures blocks == [old(blocks)[0].(cursor := old(blocks)[0].base)]
    {
      blocks := [blocks[0].(cursor := blocks[0].base)];
      total, regions := blocks[0].size, [];
    }

    /** Replaces everything by one new block; the source asserts that nothing is in use. */
    method RebindMemory(at: nat)
      requires Valid() && Used(blocks) == 0 && at > 0 && at + blockSize < WORD
      modifies this`blocks, this`total, this`regions
      ensures Valid() && regions == [] && total == blockSize && Used(blocks) == 0
      ensures blocks == [Block(at, at, at + blockSize, blockSize)]
    {
      blocks, total, regions := [Block(at, at, at + blockSize, blockSize)], blockSize, [];
    }

    method UsedBytes() returns (n: int)
      requires Valid()
      ensures n == Used(blocks) && 0 <= n <= total
    {
      n := 0;
      var i := 0;
      while i < |blocks|
        invariant 0 <= i <= |blocks|
        invariant n == Used(blocks[..i]) && 0 <= n <= SumSizes(blocks[..i])
      {
        assert blocks[..i + 1][..i] == blocks[..i];
        assert BlockOk(blocks[i]);
        n := n + (blocks[i].cursor - blocks[i].base);
        i := i + 1;
      }
      assert blocks[..i] == blocks;
    }

    method Owns(p: nat) returns (r: bool)
      ensures r <==> exists i | 0 <= i < |blocks| :: blocks[i].base <= p < blocks[i].end
    {
      var i := 0;
      while i < |blocks|
        invariant 0 <= i <= |blocks|
        invariant forall k | 0 <= k < i :: !(blocks[k].base <= p < blocks[k].end)
      {
        if blocks[i].base <= p < blocks[i].end {
          return true;
        }
        i := i + 1;
      }
      return false;
    }
  }

  /** Once every block is rewound no region is left: an empty arena has no live allocation. */
  lemma EmptyMeansNoRegion(blocks: seq<Block>, rs: seq<Region>, k: nat)
    requires BlocksOk(blocks) && AllInside(rs, blocks) && AllAligned(rs) && k < |rs|
    ensures Used(blocks) > 0
  {
    assert Inside(rs[k], blocks) && Aligned(rs[k]);
    UsedCovers(blocks, rs[k].block);
  }

  lemma {:induction false} UsedCovers(blocks: seq<Block>, j: nat)
    requires BlocksOk(blocks) && j < |blocks|
    ensures Used(blocks) >= blocks[j].cursor - blocks[j].base
    decreases |blocks|
  {
    var rest := blocks[..|blocks| - 1];
    assert BlockOk(blocks[|blocks| - 1]);
    UsedNonNegative(rest);
    if j == |blocks| - 1 {
    } else {
      UsedCovers(rest, j);
    }
  }

  lemma {:induction false} UsedNonNegative(blocks: seq<Block>)
    requires BlocksOk(blocks)
    ensures Used(blocks) >= 0
    decreases |blocks|
  {
    if blocks == [] {
    } else {
      assert BlockOk(blocks[|blocks| - 1]);
      UsedNonNegative(blocks[..|blocks| - 1]);
    }
  }

  /** A request that wraps is accepted: from any cursor, the size that leads back to address 0 passes the end test. */
  lemma WrappingSizeIsAccepted(cursor: nat, end: nat)
    requires 0 < cursor < WORD
    ensures !BadRequest(WORD - cursor, 1) && SeemsToFit(cursor, end, WORD - cursor, 1)
    ensures CursorAfter(cursor, WORD - cursor, 1) == 0 && !StaysInSpace(cursor, WORD - cursor, 1)
  {
    assert And(1, 0) == 0;
    PlacementIsLeast(cursor, WORD - cursor, 1);
  }

  /** The end test compares the block's end with the wrapped end of the placement at q, the first aligned address. */
  lemma FitsOnWords(cursor: nat, end: nat, size: nat, align: nat, q: nat)
    requires cursor < WORD && size < WORD && align < WORD && !BadRequest(size, align)
    requires IsLeastMultiple(q, cursor, align)
    ensures SeemsToFit(cursor, end, size, align) <==> q + size <= (if q + size < WORD then end else WORD + end)
  {
    var k := AlignIsPower(size, align);
    AlignUpOnWords(cursor, k, q);
  }

  /**
   A request whose size plus padding wraps reaches the allocation of a new block if and only if even the wrapped end of
   its placement lies past the current block, and the block the source asks for is within the limit.
   */
  lemma WrapReachesNewBlock(a: ArenaAllocator, size: nat, align: nat, q: nat)
    requires a.Valid() && size < WORD && align < WORD && !BadRequest(size, align) && size + align - 1 >= WORD
    requires IsLeastMultiple(q, a.Current().cursor, align)
    ensures a.NeedsBlock(size, align) <==>
            && q + size > WORD + a.Current().end
            && WordAdd(a.total, NewBlockSize(a.blockSize, size, align)) <= a.maxBytes
  {
    assert BlockOk(a.Current());
    FitsOnWords(a.Current().cursor, a.Current().end, size, align, q);
    if q < align {
      SmallMod(q, align);
    }
  }

  const DEFAULT_BLOCK_SIZE: nat := 4096
  const DEFAULT_MAX_BYTES: nat := 0x10_0000

  /**
   Such a request exists: an empty arena with the default limits takes the largest size with an alignment of 16384 to a
   second block and hands out a region that leaves it and the address space.
   */
  method WrappedBlockRun() returns (a: ArenaAllocator, p: nat)
    ensures fresh(a) && a.blockSize == DEFAULT_BLOCK_SIZE && a.maxBytes == DEFAULT_MAX_BYTES
    ensures |a.blocks| == 2 && a.regions == [Region(p, WORD - 1, 0x4000, 1)] && a.blocks[1].base <= p
    ensures !a.Valid() && p + (WORD - 1) > WORD > a.blocks[1].end
  {
    var at, again, align := 0x1010, 0x1_0010, 0x4000;
    a := new ArenaAllocator(DEFAULT_BLOCK_SIZE, DEFAULT_MAX_BYTES, at);
    AlignOf14();
    FirstAligned(at, align, align);
    FirstAligned(again, align, 5 * align);
    WrapReachesNewBlock(a, WORD - 1, align, align);
    AlignUpOnWords(again, 14, 5 * align);
    assert NewBlockSize(DEFAULT_BLOCK_SIZE, WORD - 1, align) == align - 2;
    p := a.Allocate(WORD - 1, align, again);
  }

  lemma AlignOf14()
    ensures Pow2(14) == 0x4000 && !BadRequest(WORD - 1, 0x4000)
  {
    assert Pow2(7) == 128;
    Pow2Add(7, 7);
    PowerOfTwoTest(0x4000);
  }

  lemma FirstAligned(addr: nat, align: nat, q: nat)
    requires align >= 1 && q % align == 0 && addr <= q < addr + align
    ensures IsLeastMultiple(q, addr, align)
  {
    forall z: nat | addr <= z && z % align == 0 ensures q <= z {
      MultipleGap(z, q, align);
    }
  }
}
