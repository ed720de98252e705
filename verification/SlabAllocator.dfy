/**
 The slab allocator: an intrusive free list threaded through the free slots, with a magic word per slot for
 double-free detection. Slots are numbered in the order their chunks were carved and have addresses in the memory the
 heap gave for their chunk; each has one `next` and one `magic` field, and the owner of a slot may overwrite both.
 */
module SlabAllocator {
  import opened Bits
  import opened Wrappers

  const MAGIC_ALLOCATED: nat := 0xA110CA7E
  const MAGIC_FREED: nat := 0xF2EED000

  const NULL: int := -1

  datatype Config = Config(autoGrow: bool, growChunkSize: nat, maxTotal: nat)

  datatype Allocation = Slot(index: nat) | Null | BadAlloc

  /** `count` slots from `base` on; `bytes` is what the heap was asked for. */
  datatype Chunk = Chunk(base: nat, count: nat, bytes: nat)

  /** The size of a free-list node, the platform's strictest alignment and the alignment of chunks. */
  const NODE_SIZE: nat := 16
  const MAX_ALIGN: nat := 16
  const CACHE_LINE: nat := 64

  function HeadOf(list: seq<nat>): int {
    if list == [] then NULL else list[0]
  }

  /** Following `next` from `head` visits exactly `list` and then ends. */
  ghost predicate Linked(head: int, next: seq<int>, list: seq<nat>)
    decreases |list|
  {
    && head == HeadOf(list)
    && (list != [] ==> head < |next| && Linked(next[head], next, list[1..]))
  }

  function FromTo(a: nat, b: nat): (s: seq<nat>)
    requires a <= b
    ensures |s| == b - a && forall i | 0 <= i < |s| :: s[i] == a + i
  {
    seq(b - a, i requires 0 <= i => a + i)
  }

  /** Slot a, in front of the slots up to b and older ones, is new there. */
  lemma NewSlot(a: nat, b: nat, rest: seq<nat>)
    requires a < b && forall x | x in rest :: x < a
    ensures [a] + (FromTo(a + 1, b) + rest) == FromTo(a, b) + rest
    ensures a !in FromTo(a + 1, b) + rest
  {
  }

  /** The magic words with all slots from x on marked free. */
  function FreedFrom(magic: seq<nat>, x: nat): (r: seq<nat>)
    requires x <= |magic|
    ensures |r| == |magic|
  {
    magic[..x] + seq(|magic| - x, _ => MAGIC_FREED)
  }

  lemma FreedOneMore(magic: seq<nat>, x: nat)
    requires x < |magic|
    ensures FreedFrom(magic, x + 1)[x := MAGIC_FREED] == FreedFrom(magic, x)
  {
  }

  lemma NothingThreaded(list: seq<nat>, magic: seq<nat>)
    ensures FromTo(|magic|, |magic|) + list == list && FreedFrom(magic, |magic|) == magic
  {
  }

  /** The memory determines the free list: it has one reading, so it is finite and acyclic. */
  lemma {:induction false} LinkedUnique(head: int, next: seq<int>, l1: seq<nat>, l2: seq<nat>)
    requires Linked(head, next, l1) && Linked(head, next, l2)
    ensures l1 == l2
    decreases |l1|
  {
    if l1 == [] {
    } else {
      LinkedUnique(next[head], next, l1[1..], l2[1..]);
      assert l1 == [l1[0]] + l1[1..] && l2 == [l2[0]] + l2[1..];
    }
  }

  /** A slot outside the list may be overwritten without disturbing it. */
  lemma {:induction false} LinkedFrame(head: int, next: seq<int>, list: seq<nat>, x: nat, v: int)
    requires Linked(head, next, list) && x !in list && x < |next|
    ensures Linked(head, next[x := v], list)
    decreases |list|
  {
    if list == [] {
    } else {
      LinkedFrame(next[head], next, list[1..], x, v);
    }
  }

  lemma {:induction false} LinkedGrows(head: int, next: seq<int>, list: seq<nat>, more: seq<int>)
    requires Linked(head, next, list)
    ensures Linked(head, next + more, list)
    decreases |list|
  {
    if list == [] {
    } else {
      LinkedGrows(next[head], next, list[1..], more);
    }
  }

  lemma LinkedPush(head: int, next: seq<int>, list: seq<nat>, x: nat)
    requires Linked(head, next, list) && x !in list && x < |next|
    ensures Linked(x, next[x := head], [x] + list)
  {
    LinkedFrame(head, next, list, x, head);
    assert ([x] + list)[1..] == list;
  }

  /** Every slot is either on the list, once, or handed out. */
  ghost predicate Partition(list: seq<nat>, out: set<nat>, total: nat) {
    && NoDuplicates(list)
    && (forall x: nat :: x in list || x in out <==> x < total)
    && (forall x | x in list :: x !in out)
  }

  lemma InTail(list: seq<nat>, y: nat)
    requires list != []
    ensures y in list <==> y == list[0] || y in list[1..]
  {
    assert list == [list[0]] + list[1..];
  }

  lemma PopPartition(list: seq<nat>, out: set<nat>, total: nat)
    requires Partition(list, out, total) && list != []
    ensures Partition(list[1..], out + {list[0]}, total)
  {
    forall x: nat ensures x in list[1..] || x in out + {list[0]} <==> x < total {
      InTail(list, x);
    }
  }

  lemma PushPartition(list: seq<nat>, out: set<nat>, total: nat, x: nat)
    requires Partition(list, out, total) && x in out
    ensures Partition([x] + list, out - {x}, total)
  {
    forall y: nat ensures y in [x] + list || y in out - {x} <==> y < total {
      InTail([x] + list, y);
    }
  }

  lemma GrowPartition(list: seq<nat>, out: set<nat>, total: nat, more: nat)
    requires Partition(list, out, total)
    ensures Partition(FromTo(total, total + more) + list, out, total + more)
  {
    var new' := FromTo(total, total + more);
    assert forall x | x in list :: x < total;
    forall i, j | 0 <= i < j < |new' + list| ensures (new' + list)[i] != (new' + list)[j] {
      if i < more <= j {
        assert list[j - more] in list;
      }
    }
    forall x: nat ensures x in new' + list || x in out <==> x < total + more {
      if total <= x < total + more {
        assert new'[x - total] == x;
      }
    }
  }

  /** Slots are conserved: those on the list and those handed out add up to the total. */
  lemma {:induction false} Conservation(list: seq<nat>, out: set<nat>, total: nat)
    requires Partition(list, out, total)
    ensures |list| + |out| == total
    decreases |list|
  {
    if list == [] {
      RangeSize(out, total);
    } else {
      assert list[0] in list;
      PopPartition(list, out, total);
      Conservation(list[1..], out + {list[0]}, total);
    }
  }

  lemma {:induction false} RangeSize(s: set<nat>, n: nat)
    requires forall x: nat :: x < n <==> x in s
    ensures |s| == n
  {
    if n == 0 {
      assert s == {};
    } else {
      RangeSize(s - {n - 1}, n - 1);
    }
  }

  // ---- Sizes on 64-bit words ----

  /** The division test decides whether the product fits a word. */
  lemma OverflowTest(slotSize: nat, count: nat)
    requires count > 0
    ensures slotSize <= (WORD - 1) / count <==> slotSize * count < WORD
  {
    var q := (WORD - 1) / count;
    DivModIdentity(WORD - 1, count);
    if slotSize <= q {
      MulMono(slotSize, q, count);
    } else {
      MulMono(q + 1, slotSize, count);
      assert (q + 1) * count == q * count + count;
    }
  }

  lemma Alignments()
    ensures Pow2(4) == NODE_SIZE == MAX_ALIGN && Pow2(6) == CACHE_LINE
  {
    assert Pow2(4) == 16;
    assert Pow2(6) == 64;
  }

  /** The slot size the constructor derives from the requested one. */
  function SlotSize(requested: nat): nat {
    AlignUp(if requested > NODE_SIZE then requested else NODE_SIZE, MAX_ALIGN)
  }

  /** A slot has room for the request and for a node, unless rounding up wraps: then slots have size 0. */
  lemma SlotSizeHolds(requested: nat)
    requires requested < WORD
    ensures requested + (MAX_ALIGN - 1) < WORD ==>
              && SlotSize(requested) >= requested && SlotSize(requested) >= NODE_SIZE
              && IsLeastMultiple(SlotSize(requested), if requested > NODE_SIZE then requested else NODE_SIZE, MAX_ALIGN)
    ensures requested + (MAX_ALIGN - 1) >= WORD ==> SlotSize(requested) == 0
  {
    Alignments();
    if requested + (MAX_ALIGN - 1) < WORD {
      AlignUpIsLeast(if requested > NODE_SIZE then requested else NODE_SIZE, 4);
    } else {
      AlignUpWraps(requested, 4);
    }
  }

  /** What `grow` asks the heap for: the size of the slots rounded up to whole cache lines. */
  function ChunkBytes(slotSize: nat, count: nat): nat {
    AlignUp(slotSize * count, CACHE_LINE)
  }

  /** The heap is asked for enough memory if and only if the rounding does not wrap, else for nothing at all. */
  lemma ChunkCovers(slotSize: nat, count: nat)
    requires slotSize * count < WORD
    ensures slotSize * count <= ChunkBytes(slotSize, count) <==> slotSize * count + (CACHE_LINE - 1) < WORD
    ensures slotSize * count + (CACHE_LINE - 1) < WORD ==>
              IsLeastMultiple(ChunkBytes(slotSize, count), slotSize * count, CACHE_LINE)
    ensures slotSize * count + (CACHE_LINE - 1) >= WORD ==> ChunkBytes(slotSize, count) == 0
  {
    Alignments();
    if slotSize * count + (CACHE_LINE - 1) < WORD {
      AlignUpIsLeast(slotSize * count, 6);
    } else {
      AlignUpWraps(slotSize * count, 6);
    }
  }

  /** The overflow test lets such a count through: 2^60 - 1 slots of 16 bytes get a chunk of no bytes. */
  lemma EmptyChunkIsAccepted()
    ensures var slotSize, count := SlotSize(16), 0x1000_0000_0000_0000 - 1;
            && slotSize == 16 && slotSize <= (WORD - 1) / count
            && ChunkBytes(slotSize, count) == 0 < slotSize * count
  {
    Alignments();
    AlignUpIsLeast(16, 4);
    ChunkCovers(16, 0x1000_0000_0000_0000 - 1);
  }

  // ---- Where the slots are ----

  /** The address of slot i of a chunk. */
  function Address(c: Chunk, i: nat, slotSize: nat): nat {
    c.base + i * slotSize
  }

  function ChunkEnd(c: Chunk, slotSize: nat): nat {
    c.base + slotSize * c.count
  }

  function Slots(chunks: seq<Chunk>): nat {
    if chunks == [] then 0 else Slots(chunks[..|chunks| - 1]) + chunks[|chunks| - 1].count
  }

  /** The address of the x-th slot of the pool. */
  function AddressOf(chunks: seq<Chunk>, slotSize: nat, x: nat): nat
    requires x < Slots(chunks)
  {
    var before := chunks[..|chunks| - 1];
    if x < Slots(before) then AddressOf(before, slotSize, x)
    else Address(chunks[|chunks| - 1], x - Slots(before), slotSize)
  }

  /** The heap's answer to a request: nothing, or memory apart from all it gave before. */
  predicate HeapGives(chunks: seq<Chunk>, at: nat, bytes: nat) {
    && at % CACHE_LINE == 0
    && (at != 0 ==>
          && at + bytes < WORD
          && forall k | 0 <= k < |chunks| :: chunks[k].base + chunks[k].bytes <= at || at + bytes <= chunks[k].base)
  }

  /** The memory of a chunk covers its slots. */
  predicate ChunkOk(c: Chunk, slotSize: nat) {
    && c.base % CACHE_LINE == 0 < c.base && c.base + c.bytes < WORD && slotSize * c.count <= c.bytes
  }

  ghost predicate ChunksOk(chunks: seq<Chunk>, slotSize: nat) {
    && (forall k | 0 <= k < |chunks| :: ChunkOk(chunks[k], slotSize))
    && (forall j, k | 0 <= j < k < |chunks| ::
          chunks[j].base + chunks[j].bytes <= chunks[k].base || chunks[k].base + chunks[k].bytes <= chunks[j].base)
  }

  /** A new chunk is sound exactly when its size plus the rounding fits a word. */
  lemma ChunkAdded(chunks: seq<Chunk>, slotSize: nat, count: nat, at: nat)
    requires ChunksOk(chunks, slotSize) && slotSize * count < WORD && at != 0
    requires HeapGives(chunks, at, ChunkBytes(slotSize, count))
    ensures ChunksOk(chunks + [Chunk(at, count, ChunkBytes(slotSize, count))], slotSize) <==>
            slotSize * count + (CACHE_LINE - 1) < WORD
  {
    var c := Chunk(at, count, ChunkBytes(slotSize, count));
    var more := chunks + [c];
    ChunkCovers(slotSize, count);
    assert more[|chunks|] == c;
    if slotSize * count + (CACHE_LINE - 1) < WORD {
      assert forall k | 0 <= k < |chunks| :: ChunkOk(more[k], slotSize);
    }
  }

  /** Slot x of the pool is slot i of chunk k. */
  lemma {:induction false} Locate(chunks: seq<Chunk>, slotSize: nat, x: nat) returns (k: nat, i: nat)
    requires x < Slots(chunks)
    ensures k < |chunks| && i < chunks[k].count && x == Slots(chunks[..k]) + i
    ensures AddressOf(chunks, slotSize, x) == Address(chunks[k], i, slotSize)
    decreases |chunks|
  {
    var n := |chunks| - 1;
    if x < Slots(chunks[..n]) {
      k, i := Locate(chunks[..n], slotSize, x);
      assert chunks[..n][..k] == chunks[..k];
    } else {
      k, i := n, x - Slots(chunks[..n]);
    }
  }

  lemma {:induction false} SlotsBefore(chunks: seq<Chunk>, k: nat)
    requires k < |chunks|
    ensures Slots(chunks[..k]) + chunks[k].count <= Slots(chunks)
    decreases |chunks|
  {
    var n := |chunks| - 1;
    if k == n {
    } else {
      SlotsBefore(chunks[..n], k);
      assert chunks[..n][..k] == chunks[..k];
    }
  }

  lemma {:induction false} AddressAt(chunks: seq<Chunk>, slotSize: nat, k: nat, i: nat)
    requires k < |chunks| && i < chunks[k].count
    ensures Slots(chunks[..k]) + i < Slots(chunks)
    ensures AddressOf(chunks, slotSize, Slots(chunks[..k]) + i) == Address(chunks[k], i, slotSize)
    decreases |chunks|
  {
    var n := |chunks| - 1;
    SlotsBefore(chunks, k);
    if k == n {
    } else {
      AddressAt(chunks[..n], slotSize, k, i);
      assert chunks[..n][..k] == chunks[..k];
    }
  }

  /** A slot lies inside the memory of its chunk. */
  lemma InsideChunk(c: Chunk, slotSize: nat, i: nat)
    requires i < c.count && slotSize * c.count <= c.bytes
    ensures c.base <= Address(c, i, slotSize) && Address(c, i, slotSize) + slotSize <= c.base + c.bytes
  {
    MulMono(0, i, slotSize);
    MulMono(i + 1, c.count, slotSize);
    OneMoreTimes(i, slotSize);
    TimesCommutes(c.count, slotSize);
  }

  lemma OneMoreTimes(i: int, m: int)
    ensures (i + 1) * m == i * m + m
  {
  }

  lemma TimesCommutes(x: int, y: int)
    ensures x * y == y * x
  {
  }

  predicate SlotsApart(a: nat, b: nat, slotSize: nat) {
    a + slotSize <= b || b + slotSize <= a
  }

  lemma SameChunkApart(c: Chunk, slotSize: nat, i: nat, j: nat)
    requires i != j
    ensures SlotsApart(Address(c, i, slotSize), Address(c, j, slotSize), slotSize)
  {
    if i < j {
      MulMono(i + 1, j, slotSize);
      OneMoreTimes(i, slotSize);
    } else {
      MulMono(j + 1, i, slotSize);
      OneMoreTimes(j, slotSize);
    }
  }

  /** Different slots of the pool occupy disjoint memory, whichever chunks they come from. */
  lemma SlotsDoNotOverlap(chunks: seq<Chunk>, slotSize: nat, x: nat, y: nat)
    requires ChunksOk(chunks, slotSize) && x < Slots(chunks) && y < Slots(chunks) && x != y
    ensures SlotsApart(AddressOf(chunks, slotSize, x), AddressOf(chunks, slotSize, y), slotSize)
  {
    var k, i := Locate(chunks, slotSize, x);
    var l, j := Locate(chunks, slotSize, y);
    assert ChunkOk(chunks[k], slotSize) && ChunkOk(chunks[l], slotSize);
    InsideChunk(chunks[k], slotSize, i);
    InsideChunk(chunks[l], slotSize, j);
    if k == l {
      SameChunkApart(chunks[k], slotSize, i, j);
    }
  }

  /** Every slot lies inside memory the heap gave, at a multiple of the strictest alignment. */
  lemma SlotIsUsable(chunks: seq<Chunk>, slotSize: nat, x: nat)
    requires ChunksOk(chunks, slotSize) && slotSize % MAX_ALIGN == 0 && x < Slots(chunks)
    ensures var a := AddressOf(chunks, slotSize, x);
            && a % MAX_ALIGN == 0
            && exists k | 0 <= k < |chunks| ::
                 chunks[k].base <= a && a + slotSize <= chunks[k].base + chunks[k].bytes
  {
    var k, i := Locate(chunks, slotSize, x);
    assert ChunkOk(chunks[k], slotSize);
    InsideChunk(chunks[k], slotSize, i);
    AlignedStep(chunks[k].base, i, slotSize);
  }

  lemma AlignedStep(base: nat, i: nat, slotSize: nat)
    requires base % CACHE_LINE == 0 && slotSize % MAX_ALIGN == 0
    ensures (base + i * slotSize) % MAX_ALIGN == 0
  {
    DivModIdentity(slotSize, MAX_ALIGN);
    DivModIdentity(base, CACHE_LINE);
    var q := base / CACHE_LINE * 4 + i * (slotSize / MAX_ALIGN);
    assert i * slotSize == i * (slotSize / MAX_ALIGN * MAX_ALIGN) == i * (slotSize / MAX_ALIGN) * MAX_ALIGN;
    MultipleMod(q, MAX_ALIGN);
  }

  class Slab {
    const slotSize: nat
    const initial: nat
    const config: Config
    var chunks: seq<Chunk>
    var next: seq<int>
    var magic: seq<nat>
    var head: int
    var total: nat
    var freeCount: nat
    var growCount: nat
    var peak: nat
    var doubleFrees: nat
    ghost var list: seq<nat>
    /** Slots handed out and not yet taken back. */
    ghost var out: set<nat>

    /** The bookkeeping: counters, free list, magic words and slots handed out agree. */
    ghost predicate Booked()
      reads this
    {
      && initial > 0 && Slots(chunks) == total
      && |next| == |magic| == total
      && Linked(head, next, list) && Partition(list, out, total)
      && freeCount == |list|
      && (forall x | x in list :: magic[x] == MAGIC_FREED)
      && (config.maxTotal > 0 ==> total <= if initial > config.maxTotal then initial else config.maxTotal)
      && (!config.autoGrow ==> total == initial)
      && |out| <= peak
    }

    /** Moreover slots have a size, and lie in disjoint memory that the heap gave. */
    ghost predicate Valid()
      reads this
    {
      Booked() && slotSize > 0 && slotSize % MAX_ALIGN == 0 && ChunksOk(chunks, slotSize)
    }

    constructor (slotSize: nat, initial: nat, config: Config)
      ensures this.slotSize == slotSize && this.initial == initial && this.config == config
      ensures chunks == [] && next == [] && magic == [] && head == NULL && total == freeCount == 0
      ensures growCount == peak == doubleFrees == 0 && list == [] && out == {}
    {
      this.slotSize, this.initial, this.config := slotSize, initial, config;
      chunks, next, magic, head, total, freeCount := [], [], [], NULL, 0, 0;
      growCount, peak, doubleFrees, list, out := 0, 0, 0, [], {};
    }

    /**
     The public constructor; `at` is where the heap puts the first chunk. Null stands for the exceptions on a zero
     count, an overflowing product and a failing heap. The pool is sound if and only if neither the slot size nor the
     chunk size wrapped when it was rounded up; otherwise its slots are not inside memory the heap gave.
     */
    static method Create(requested: nat, initial: nat, config: Config, at: nat) returns (slab: Slab?)
      requires requested < WORD
      requires SlotSize(requested) * initial < WORD ==> HeapGives([], at, ChunkBytes(SlotSize(requested), initial))
      ensures slab == null <==> initial == 0 || SlotSize(requested) * initial >= WORD || at == 0
      ensures slab != null ==>
                && fresh(slab) && slab.Booked() && slab.config == config && slab.slotSize == SlotSize(requested)
                && slab.out == {} && slab.list == FromTo(0, initial) && slab.total == slab.initial == initial
                && slab.chunks == [Chunk(at, initial, ChunkBytes(slab.slotSize, initial))] && slab.doubleFrees == 0
      ensures slab != null ==>
                (slab.Valid() <==>
                 && requested + (MAX_ALIGN - 1) < WORD
                 && SlotSize(requested) * initial + (CACHE_LINE - 1) < WORD)
    {
      slab := null;
      if initial == 0 {
        return;
      }
      var pool := new Slab(SlotSize(requested), initial, config);
      GrowPartition([], {}, 0, initial);
      SlotSizeHolds(requested);
      var ok := pool.Grow(initial, at);
      if ok {
        assert Slots([]) == 0;
        slab := pool;
      }
    }

    /**
     Carves `count` new slots at `at`, where the heap put the chunk, and threads them, back to front, in front of the
     list. Refuses exactly when the product overflows or the heap has nothing; the new chunk is sound exactly when the
     rounding of its size did not wrap.
     */
    method Grow(count: nat, at: nat) returns (ok: bool)
      requires |next| == |magic| == total == Slots(chunks) && Linked(head, next, list) && freeCount == |list|
      requires forall x | x in list :: x < total
      requires slotSize * count < WORD ==> HeapGives(chunks, at, ChunkBytes(slotSize, count))
      modifies this`chunks, this`next, this`magic, this`head, this`total, this`freeCount, this`list
      ensures ok <==> slotSize * count < WORD && at != 0
      ensures !ok ==> unchanged(this)
      ensures ok ==> total == old(total) + count && |next| == |magic| == total == Slots(chunks) && freeCount == |list|
      ensures ok ==> list == FromTo(old(total), total) + old(list) && Linked(head, next, list)
      ensures ok ==> magic[..old(total)] == old(magic)
      ensures ok ==> forall i | old(total) <= i < total :: magic[i] == MAGIC_FREED
      ensures ok ==> chunks == old(chunks) + [Chunk(at, count, ChunkBytes(slotSize, count))]
      ensures ok && ChunksOk(old(chunks), slotSize) ==>
                (ChunksOk(chunks, slotSize) <==> slotSize * count + (CACHE_LINE - 1) < WORD)
    {
      if count > 0 {
        OverflowTest(slotSize, count);
      }
      if count > 0 && slotSize > (WORD - 1) / count {
        return false;
      }
      if at == 0 {
        return false;
      }
      if ChunksOk(chunks, slotSize) {
        ChunkAdded(chunks, slotSize, count, at);
      }
      AddChunk(Chunk(at, count, ChunkBytes(slotSize, count)));
      Carve(count);
      return true;
    }

    /** Threads `count` more slots into the list. */
    method Carve(count: nat)
      requires |next| == |magic| == total && Linked(head, next, list) && freeCount == |list|
      requires forall x | x in list :: x < total
      modifies this`next, this`magic, this`head, this`total, this`freeCount, this`list
      ensures total == old(total) + count && |next| == |magic| == total && freeCount == |list|
      ensures list == FromTo(old(total), total) + old(list) && Linked(head, next, list)
      ensures magic == old(magic) + seq(count, _ => MAGIC_FREED)
    {
      LinkedGrows(head, next, list, seq(count, _ => NULL));
      next, magic := next + seq(count, _ => NULL), magic + seq(count, _ => 0);
      Thread(count);
      assert magic == old(magic) + seq(count, _ => MAGIC_FREED);
      total, freeCount := total + count, freeCount + count;
    }

    method AddChunk(c: Chunk)
      modifies this`chunks
      ensures chunks == old(chunks) + [c] && Slots(chunks) == Slots(old(chunks)) + c.count
    {
      chunks := chunks + [c];
      assert chunks[..|chunks| - 1] == old(chunks);
    }

    method Thread(count: nat)
      requires |next| == |magic| == total + count && Linked(head, next, list)
      requires forall x | x in list :: x < total
      modifies this`next, this`magic, this`head, this`list
      ensures |next| == total + count && magic == FreedFrom(old(magic), total)
      ensures list == FromTo(total, total + count) + old(list) && Linked(head, next, list)
    {
      ghost var older, words := list, magic;
      NothingThreaded(list, magic);
      var x := total + count;
      while x > total
        invariant total <= x <= |words| && Threading(x, older, words)
      {
        x := x - 1;
        ThreadOne(x, older, words);
      }
    }

    /** All slots from x on are marked free and linked in front of the older ones. */
    ghost predicate Threading(x: nat, older: seq<nat>, words: seq<nat>)
      reads this
      requires x <= |words|
    {
      && |next| == |words| && magic == FreedFrom(words, x)
      && list == FromTo(x, |words|) + older && Linked(head, next, list)
    }

    method ThreadOne(x: nat, ghost older: seq<nat>, ghost words: seq<nat>)
      requires x < |words| && Threading(x + 1, older, words) && forall y | y in older :: y < x
      modifies this`next, this`magic, this`head, this`list
      ensures Threading(x, older, words)
    {
      NewSlot(x, |words|, older);
      FreedOneMore(words, x);
      PushFree(x);
    }

    /** Marks a slot free and links it in front of the list. */
    method PushFree(x: nat)
      requires x < |next| == |magic| && Linked(head, next, list) && x !in list
      modifies this`next, this`magic, this`head, this`list
      ensures |next| == old(|next|) && magic == old(magic)[x := MAGIC_FREED]
      ensures list == [x] + old(list) && Linked(head, next, list)
    {
      LinkedPush(head, next, list, x);
      next, magic, head, list := next[x := head], magic[x := MAGIC_FREED], x, [x] + list;
    }

    /** How many slots an exhausted pool would add; 0 means it may not grow. */
    function GrowBy(): nat
      reads this
    {
      if !config.autoGrow then 0
      else
        var chunk := if config.growChunkSize > 0 then config.growChunkSize else initial;
        if config.maxTotal == 0 then chunk
        else if total >= config.maxTotal then 0
        else if chunk < config.maxTotal - total then chunk else config.maxTotal - total
    }

    /**
     The growth rule: by the configured chunk, or by as many slots as the pool began with when none is configured, but
     never beyond the maximum, which 0 turns off; and not at all without `auto_grow`.
     */
    lemma GrowthRule()
      requires Booked()
      ensures !config.autoGrow ==> GrowBy() == 0
      ensures config.autoGrow && config.maxTotal == 0 ==>
                GrowBy() == if config.growChunkSize == 0 then initial else config.growChunkSize
      ensures config.autoGrow && 0 < config.maxTotal <= total ==> GrowBy() == 0
      ensures config.autoGrow && total < config.maxTotal ==>
                && 0 < GrowBy() <= (if config.growChunkSize == 0 then initial else config.growChunkSize)
                && total + GrowBy() <= config.maxTotal
                && (total + GrowBy() == config.maxTotal ||
                    GrowBy() == if config.growChunkSize == 0 then initial else config.growChunkSize)
    {
    }

    /**
     `allocate`: takes the first free slot, growing an exhausted pool when allowed, with the new chunk at `at`. Fails
     exactly when the list is empty and the pool may not grow, and throws exactly when the growth overflows or the heap
     has nothing. A pool that did not grow stays sound; one that grew does exactly when the chunk size did not wrap.
     */
    method Allocate(at: nat) returns (r: Allocation)
      requires Valid()
      requires list == [] && slotSize * GrowBy() < WORD ==> HeapGives(chunks, at, ChunkBytes(slotSize, GrowBy()))
      modifies this
      ensures Booked()
      ensures Valid() <==> (r.Slot? && old(list) == [] ==> slotSize * old(GrowBy()) + (CACHE_LINE - 1) < WORD)
      ensures r.Null? <==> old(list) == [] && old(GrowBy()) == 0
      ensures r.BadAlloc? <==> old(list) == [] && old(GrowBy()) > 0 && (slotSize * old(GrowBy()) >= WORD || at == 0)
      ensures !r.Slot? ==> unchanged(this)
      ensures r.Slot? ==> out == old(out) + {r.index} && r.index !in old(out) && r.index < total
      ensures r.Slot? && old(list) != [] ==>
                r.index == old(list)[0] && list == old(list)[1..] && total == old(total) && chunks == old(chunks)
      ensures r.Slot? && old(list) == [] ==> r.index == old(total) && list == FromTo(old(total) + 1, total)
      ensures r.Slot? && old(list) == [] ==> total == old(total) + old(GrowBy()) && growCount == old(growCount) + 1
      ensures r.Slot? && old(list) == [] ==>
                chunks == old(chunks) + [Chunk(at, old(GrowBy()), ChunkBytes(slotSize, old(GrowBy())))]
      ensures r.Slot? ==> magic[r.index] == MAGIC_ALLOCATED
      ensures doubleFrees == old(doubleFrees)
    {
      if head == NULL {
        r := AllocateByGrowing(at);
      } else {
        var x := PopFree();
        r := Slot(x);
      }
    }

    /** `allocate` on an exhausted pool. */
    method AllocateByGrowing(at: nat) returns (r: Allocation)
      requires Valid() && list == []
      requires slotSize * GrowBy() < WORD ==> HeapGives(chunks, at, ChunkBytes(slotSize, GrowBy()))
      modifies this
      ensures Booked()
      ensures Valid() <==> (r.Slot? ==> slotSize * old(GrowBy()) + (CACHE_LINE - 1) < WORD)
      ensures r.Null? <==> old(GrowBy()) == 0
      ensures r.BadAlloc? <==> old(GrowBy()) > 0 && (slotSize * old(GrowBy()) >= WORD || at == 0)
      ensures !r.Slot? ==> unchanged(this)
      ensures r.Slot? ==>
                && out == old(out) + {r.index} && r.index == old(total) && r.index !in old(out)
                && list == FromTo(old(total) + 1, total)
                && total == old(total) + old(GrowBy()) && growCount == old(growCount) + 1
                && chunks == old(chunks) + [Chunk(at, old(GrowBy()), ChunkBytes(slotSize, old(GrowBy())))]
                && magic[r.index] == MAGIC_ALLOCATED
      ensures doubleFrees == old(doubleFrees)
    {
      r := Refill(at);
      if r.Slot? {
        ghost var free := list;
        assert free[1..] == FromTo(old(total) + 1, total);
        var x := PopFree();
      }
    }

    /** Grows an exhausted pool; on success names the first new slot. */
    method Refill(at: nat) returns (r: Allocation)
      requires Valid() && list == []
      requires slotSize * GrowBy() < WORD ==> HeapGives(chunks, at, ChunkBytes(slotSize, GrowBy()))
      modifies this`chunks, this`next, this`magic, this`head, this`total, this`freeCount, this`list, this`growCount
      ensures Booked() && (r.Slot? <==> old(GrowBy()) > 0 && slotSize * old(GrowBy()) < WORD && at != 0)
      ensures r.Null? <==> old(GrowBy()) == 0
      ensures !r.Slot? ==> unchanged(this)
      ensures r.Slot? ==> total == old(total) + old(GrowBy()) && growCount == old(growCount) + 1
      ensures r.Slot? ==> r.index == old(total) && list == FromTo(old(total), total)
      ensures r.Slot? ==> chunks == old(chunks) + [Chunk(at, old(GrowBy()), ChunkBytes(slotSize, old(GrowBy())))]
      ensures r.Slot? ==> (ChunksOk(chunks, slotSize) <==> slotSize * old(GrowBy()) + (CACHE_LINE - 1) < WORD)
    {
      var chunk := GrowBy();
      if chunk == 0 {
        return Null;
      }
      GrowPartition([], out, total, chunk);
      r := Slot(total);
      var ok := Grow(chunk, at);
      if !ok {
        return BadAlloc;
      }
      growCount := growCount + 1;
      assert list == FromTo(old(total), total);
    }

    /** Unlinks the first free slot and hands it out. */
    method PopFree() returns (x: nat)
      requires Booked() && list != []
      modifies this`head, this`freeCount, this`magic, this`list, this`out, this`peak
      ensures Booked() && x == old(list)[0] && list == old(list)[1..] && out == old(out) + {x}
      ensures magic == old(magic)[x := MAGIC_ALLOCATED] && x !in old(out)
    {
      x := head;
      PopPartition(list, out, total);
      head := next[x];
      freeCount := freeCount - 1;
      magic := magic[x := MAGIC_ALLOCATED];
      list, out := list[1..], out + {x};
      Conservation(list, out, total);
      if total - freeCount > peak {
        peak := total - freeCount;
      }
    }

    /**
     `deallocate`: the slot is taken back exactly when its magic is not the freed marker; freeing a slot that is on
     the list only counts a double free. An owner who wrote the marker into a live slot leaks it.
     */
    method Deallocate(p: int)
      requires Valid() && (p == NULL || 0 <= p < total)
      modifies this`next, this`magic, this`head, this`freeCount, this`list, this`out, this`doubleFrees
      ensures Valid()
      ensures p == NULL ==> unchanged(this)
      ensures p != NULL && old(magic)[p] == MAGIC_FREED ==>
                doubleFrees == old(doubleFrees) + 1 && list == old(list) && out == old(out) && next == old(next)
                && magic == old(magic) && head == old(head) && freeCount == old(freeCount)
      ensures p != NULL && old(magic)[p] != MAGIC_FREED ==>
                list == [p as nat] + old(list) && out == old(out) - {p} && p in old(out)
                && doubleFrees == old(doubleFrees) && freeCount == old(freeCount) + 1
      ensures p in old(list) ==> old(magic)[p] == MAGIC_FREED
    {
      if p == NULL {
        return;
      }
      if magic[p] == MAGIC_FREED {
        doubleFrees := doubleFrees + 1;
        return;
      }
      PushPartition(list, out, total, p);
      PushFree(p);
      freeCount, out := freeCount + 1, out - {p};
    }

    /** The owner of a slot writes anything into it, the link and magic fields included. */
    method OwnerWrites(x: nat, link: int, word: nat)
      requires Valid() && x in out
      modifies this`next, this`magic
      ensures Valid() && magic == old(magic)[x := word]
    {
      LinkedFrame(head, next, list, x, link);
      next, magic := next[x := link], magic[x := word];
    }

    method AllocatedCount() returns (n: nat)
      requires Valid()
      ensures n == |out| == total - |list|
    {
      Conservation(list, out, total);
      n := total - freeCount;
    }

    /** `owns` of a sound pool is true exactly of the addresses of its slots. */
    method OwnsAddress(p: nat) returns (r: bool)
      requires Valid()
      ensures r <==> exists x: nat :: x < total && AddressOf(chunks, slotSize, x) == p
    {
      assert forall k | 0 <= k < |chunks| :: ChunkOk(chunks[k], slotSize);
      r := Owns(chunks, slotSize, p);
      NumberedAddress(chunks, slotSize, p);
    }
  }

  // ---- Address ownership ----

  ghost predicate IsSlotAddress(chunks: seq<Chunk>, slotSize: nat, p: nat) {
    exists k, i: nat | 0 <= k < |chunks| && i < chunks[k].count :: p == Address(chunks[k], i, slotSize)
  }

  /** Chunks come from the heap, so their address ranges do not overlap. */
  ghost predicate Separate(chunks: seq<Chunk>, slotSize: nat) {
    forall j, k | 0 <= j < |chunks| && 0 <= k < |chunks| && j != k ::
      ChunkEnd(chunks[j], slotSize) <= chunks[k].base || ChunkEnd(chunks[k], slotSize) <= chunks[j].base
  }

  /** Slot addresses by chunk and by number are the same. */
  lemma NumberedAddress(chunks: seq<Chunk>, slotSize: nat, p: nat)
    ensures IsSlotAddress(chunks, slotSize, p) <==>
            exists x: nat :: x < Slots(chunks) && AddressOf(chunks, slotSize, x) == p
  {
    if IsSlotAddress(chunks, slotSize, p) {
      var k, i: nat :| 0 <= k < |chunks| && i < chunks[k].count && p == Address(chunks[k], i, slotSize);
      AddressAt(chunks, slotSize, k, i);
    }
    if exists x: nat :: x < Slots(chunks) && AddressOf(chunks, slotSize, x) == p {
      var x: nat :| x < Slots(chunks) && AddressOf(chunks, slotSize, x) == p;
      var k, i := Locate(chunks, slotSize, x);
    }
  }

  lemma SlotIsInside(c: Chunk, slotSize: nat, i: nat)
    requires slotSize > 0 && i < c.count
    ensures var p := Address(c, i, slotSize);
            c.base <= p < ChunkEnd(c, slotSize) && (p - c.base) % slotSize == 0
  {
    MulMono(0, i, slotSize);
    MulMono(i + 1, c.count, slotSize);
    assert (i + 1) * slotSize == i * slotSize + slotSize;
    assert c.count * slotSize == slotSize * c.count;
    MultipleMod(i, slotSize);
  }

  lemma InsideIsSlot(c: Chunk, slotSize: nat, p: nat) returns (i: nat)
    requires slotSize > 0 && c.base <= p < ChunkEnd(c, slotSize) && (p - c.base) % slotSize == 0
    ensures i < c.count && p == Address(c, i, slotSize)
  {
    DivNonNegative(p - c.base, slotSize);
    i := (p - c.base) / slotSize;
    DivModIdentity(p - c.base, slotSize);
    if i >= c.count {
      MulMono(c.count, i, slotSize);
    }
  }

  lemma SlotAddress(c: Chunk, slotSize: nat, p: nat)
    requires slotSize > 0
    ensures (exists i: nat | i < c.count :: p == Address(c, i, slotSize)) <==>
            c.base <= p < ChunkEnd(c, slotSize) && (p - c.base) % slotSize == 0
  {
    forall i: nat | i < c.count && p == Address(c, i, slotSize)
      ensures c.base <= p < ChunkEnd(c, slotSize) && (p - c.base) % slotSize == 0
    {
      SlotIsInside(c, slotSize, i);
    }
    if c.base <= p < ChunkEnd(c, slotSize) && (p - c.base) % slotSize == 0 {
      var i := InsideIsSlot(c, slotSize, p);
    }
  }

  /** `owns`: true exactly of the addresses of slots; interior and foreign addresses are rejected. */
  method Owns(chunks: seq<Chunk>, slotSize: nat, p: nat) returns (r: bool)
    requires slotSize > 0 && Separate(chunks, slotSize)
    ensures r <==> IsSlotAddress(chunks, slotSize, p)
  {
    var k := 0;
    while k < |chunks|
      invariant 0 <= k <= |chunks|
      invariant forall j | 0 <= j < k :: !(chunks[j].base <= p < ChunkEnd(chunks[j], slotSize))
    {
      if chunks[k].base <= p < ChunkEnd(chunks[k], slotSize) {
        r := (p - chunks[k].base) % slotSize == 0;
        forall j | 0 <= j < |chunks| {
          SlotAddress(chunks[j], slotSize, p);
        }
        return;
      }
      k := k + 1;
    }
    forall j | 0 <= j < |chunks| {
      SlotAddress(chunks[j], slotSize, p);
    }
    return false;
  }
}
