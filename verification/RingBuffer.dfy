/**
 The receive buffer: a power-of-two circular byte array addressed by free-running
 64-bit counters, with a scratch buffer that makes wrapped data contiguous.
 It is proved to behave as a bounded byte queue, including counter wrap-around.
 */
module RingBuffer {
  import opened Bits

  // ---- Circular ranges ----

  /** n bytes from physical index r of a ring that occupies the first cap bytes of phys. */
  function Ring(phys: seq<byte>, cap: nat, r: nat, n: nat): (s: seq<byte>)
    requires r < cap <= |phys| && n <= cap
    ensures |s| == n
  {
    if r + n <= cap then phys[r..r + n] else phys[r..cap] + phys[..r + n - cap]
  }

  function Forward(cap: nat, r: nat, n: nat): (i: nat)
    requires r < cap && n <= cap
    ensures i < cap
  {
    if r + n < cap then r + n else r + n - cap
  }

  lemma SliceJoin(s: seq<byte>, i: nat, j: nat, k: nat)
    requires i <= j <= k <= |s|
    ensures s[i..k] == s[i..j] + s[j..k]
  {
  }

  lemma Regroup(x: seq<byte>, y: seq<byte>, z: seq<byte>)
    ensures x + (y + z) == (x + y) + z
  {
  }

  lemma SplitFlat(phys: seq<byte>, cap: nat, r: nat, a: nat, b: nat)
    requires cap <= |phys| && r + a < cap && r + a + b <= cap
    ensures Ring(phys, cap, r, a + b) == Ring(phys, cap, r, a) + Ring(phys, cap, r + a, b)
  {
    SliceJoin(phys, r, r + a, r + a + b);
  }

  lemma SplitAcross(phys: seq<byte>, cap: nat, r: nat, a: nat, b: nat)
    requires cap <= |phys| && a + b <= cap && r + a < cap < r + a + b
    ensures Ring(phys, cap, r, a + b) == Ring(phys, cap, r, a) + Ring(phys, cap, r + a, b)
  {
    SliceJoin(phys, r, r + a, cap);
    Regroup(phys[r..r + a], phys[r + a..cap], phys[0..r + a + b - cap]);
  }

  lemma SplitAtEnd(phys: seq<byte>, cap: nat, r: nat, a: nat, b: nat)
    requires r < cap <= |phys| && a + b <= cap && r + a == cap
    ensures Ring(phys, cap, r, a + b) == Ring(phys, cap, r, a) + Ring(phys, cap, 0, b)
  {
    if b == 0 {
      assert Ring(phys, cap, 0, b) == [];
    }
  }

  lemma SplitWrapped(phys: seq<byte>, cap: nat, r: nat, a: nat, b: nat)
    requires r < cap <= |phys| && a + b <= cap && r + a > cap
    ensures Ring(phys, cap, r, a + b) == Ring(phys, cap, r, a) + Ring(phys, cap, r + a - cap, b)
  {
    SliceJoin(phys, 0, r + a - cap, r + a + b - cap);
    Regroup(phys[r..cap], phys[0..r + a - cap], phys[r + a - cap..r + a + b - cap]);
  }

  /** Reading a + b bytes is reading a bytes and then b bytes from where those end. */
  lemma RingSplit(phys: seq<byte>, cap: nat, r: nat, a: nat, b: nat)
    requires r < cap <= |phys| && a + b <= cap
    ensures Ring(phys, cap, r, a + b) == Ring(phys, cap, r, a) + Ring(phys, cap, Forward(cap, r, a), b)
  {
    if r + a > cap {
      SplitWrapped(phys, cap, r, a, b);
    } else if r + a == cap {
      SplitAtEnd(phys, cap, r, a, b);
    } else if r + a + b <= cap {
      SplitFlat(phys, cap, r, a, b);
    } else {
      SplitAcross(phys, cap, r, a, b);
    }
  }

  /** Writes behind the readable range leave it alone. */
  lemma WriteOutsideRing(phys: seq<byte>, phys': seq<byte>, cap: nat, r: nat, n: nat, off: nat, len: nat)
    requires r < cap <= |phys| == |phys'| && n + len <= cap && off == Forward(cap, r, n) && off + len <= cap
    requires forall i | 0 <= i < |phys| && !(off <= i < off + len) :: phys'[i] == phys[i]
    ensures Ring(phys', cap, r, n) == Ring(phys, cap, r, n)
  {
  }

  lemma ExponentOf(cap: nat) returns (k: nat)
    requires IsPow2(cap) && cap < WORD
    ensures k <= 63 && cap == Pow2(k)
  {
    k :| cap == Pow2(k);
    Pow2Of64();
    if k > 63 {
      Pow2Mono(64, k);
    }
  }

  // ---- Counters ----

  /** Sizes follow the counters across the wrap. */
  lemma SizeGrows(w: nat, r: nat, m: nat)
    requires w < WORD && r < WORD && WordSub(w, r) + m < WORD
    ensures WordSub(WordAdd(w, m), r) == WordSub(w, r) + m
  {
  }

  lemma SizeShrinks(w: nat, r: nat, m: nat)
    requires w < WORD && r < WORD && m <= WordSub(w, r)
    ensures WordSub(w, WordAdd(r, m)) == WordSub(w, r) - m
  {
  }

  /** Advancing a counter by n moves its physical index forward by n, also across the 64-bit wrap. */
  lemma IndexAdvances(pos: nat, n: nat, bits: nat)
    requires pos < WORD && bits <= 63 && n <= Pow2(bits)
    ensures n < WORD
    ensures MaskIndex(WordAdd(pos, n), bits) == Forward(Pow2(bits), MaskIndex(pos, bits), n)
  {
    var cap := Pow2(bits);
    var w := WordWidth();
    WordIsMultiple(bits);
    var q :| WORD == q * cap && q > 1;
    MulMono(2, q, cap);
    MaskIsMod(pos, bits);
    MaskIsMod(WordAdd(pos, n), bits);
    DivModIdentity(pos, cap);
    var r, k := pos % cap, pos / cap;
    var sum := WordAdd(pos, n);
    var carry := if r + n < cap then 0 else 1;
    if pos + n < WORD {
      assert sum == (k + carry) * cap + (r + n - carry * cap) by { assert (k + carry) * cap == k * cap + carry * cap; }
      DivModUnique(sum, cap, k + carry, r + n - carry * cap);
    } else {
      assert sum == (k + carry - q) * cap + (r + n - carry * cap) by {
        assert (k + carry - q) * cap == k * cap + carry * cap - q * cap;
      }
      DivModUnique(sum, cap, k + carry - q, r + n - carry * cap);
    }
  }

  lemma WordIsMultiple(bits: nat)
    requires bits <= 63
    ensures exists q :: WORD == q * Pow2(bits) && q > 1
  {
    var w := WordWidth();
    Pow2Add(w - bits, bits);
    assert Pow2(w - bits) > 1 by {
      Pow2Mono(1, w - bits);
    }
  }

  class ByteRing {
    const capacity: nat
    const mask: nat
    ghost const bits: nat
    const buffer: array<byte>
    var scratch: array?<byte>
    var readPos: nat
    var writePos: nat

    ghost predicate Valid()
      reads this
    {
      && bits <= 63 && capacity == Pow2(bits) && mask == capacity - 1 && buffer.Length >= capacity
      && readPos < WORD && writePos < WORD && WordSub(writePos, readPos) <= capacity
      && scratch != buffer
    }

    /** The queued bytes, oldest first. */
    ghost function Contents(): (s: seq<byte>)
      reads this, buffer
      requires Valid()
      ensures |s| == WordSub(writePos, readPos) <= capacity
    {
      Ring(buffer[..], capacity, MaskIndex(readPos, bits), WordSub(writePos, readPos))
    }

    constructor (capacity: nat, ghost bits: nat)
      requires bits <= 63 && capacity == Pow2(bits)
      ensures Valid() && fresh(buffer) && scratch == null
      ensures this.capacity == capacity && this.bits == bits && readPos == 0 && Contents() == []
    {
      this.capacity, this.mask, this.bits := capacity, capacity - 1, bits;
      buffer := new byte[if capacity < 64 then 64 else capacity](_ => 0);
      scratch, readPos, writePos := null, 0, 0;
    }

    /** The public constructor: round the request up to a power of two; null stands for the overflow exception. */
    static method Create(request: nat) returns (ring: ByteRing?)
      requires request < WORD
      ensures ring == null <==> request > 0x8000_0000_0000_0000
      ensures ring != null ==>
                && ring.Valid() && fresh(ring) && fresh(ring.buffer) && ring.scratch == null
                && ring.Contents() == [] && request <= ring.capacity && 1 <= ring.capacity
                && forall k: nat :: request <= Pow2(k) ==> ring.capacity <= Pow2(k)
    {
      var v := if request < 1 then 1 else request;
      var cap := NextPowerOf2(v);
      NextPowerOf2IsLeast(v);
      ring := null;
      if cap != 0 {
        ghost var k := ExponentOf(cap);
        ring := new ByteRing(cap, k);
      }
    }

    function ReadableSize(): nat
      reads this
      requires Valid()
    {
      WordSub(writePos, readPos)
    }

    function WritableSize(): nat
      reads this
      requires Valid()
    {
      capacity - ReadableSize()
    }

    /** Physical indices: the mask is the modulus, and the write index is the read index moved forward. */
    lemma Indices()
      requires Valid()
      ensures And(readPos, mask) == MaskIndex(readPos, bits)
      ensures And(writePos, mask) == Forward(capacity, MaskIndex(readPos, bits), WordSub(writePos, readPos))
    {
      var n := WordSub(writePos, readPos);
      IndexAdvances(readPos, n, bits);
      assert WordAdd(readPos, n) == writePos;
    }

    /** `writable`: the contiguous free span at the write position. */
    method Writable() returns (off: nat, len: nat)
      requires Valid()
      ensures len == 0 <==> WritableSize() == 0
      ensures len > 0 ==> off == Forward(capacity, MaskIndex(readPos, bits), ReadableSize())
      ensures off + len <= capacity && len <= WritableSize()
      ensures len < WritableSize() ==> off + len == capacity
    {
      var avail := WritableSize();
      if avail == 0 {
        return 0, 0;
      }
      Indices();
      off := And(writePos, mask);
      len := if capacity - off < avail then capacity - off else avail;
    }

    /** `commit_write`: the bytes physically present behind the write position become readable. */
    method CommitWrite(n: nat)
      requires Valid()
      modifies `writePos
      ensures Valid()
      ensures var m := if n < old(WritableSize()) then n else old(WritableSize());
              Contents() == old(Contents()) +
                Ring(buffer[..], capacity, Forward(capacity, MaskIndex(readPos, bits), old(ReadableSize())), m)
    {
      var m := if n < WritableSize() then n else WritableSize();
      RingSplit(buffer[..], capacity, MaskIndex(readPos, bits), ReadableSize(), m);
      CapacityFits();
      SizeGrows(writePos, readPos, m);
      writePos := WordAdd(writePos, m);
    }

    lemma CapacityFits()
      requires Valid()
      ensures capacity < WORD
    {
      Pow2Of64();
      Pow2Mono(bits, 63);
    }

    /** `consume`: drop bytes from the front. */
    method Consume(n: nat)
      requires Valid()
      modifies `readPos
      ensures Valid() && readPos == WordAdd(old(readPos), if n < old(ReadableSize()) then n else old(ReadableSize()))
      ensures Contents() == old(Contents())[if n < old(ReadableSize()) then n else old(ReadableSize())..]
    {
      var m := if n < ReadableSize() then n else ReadableSize();
      RingSplit(buffer[..], capacity, MaskIndex(readPos, bits), m, ReadableSize() - m);
      IndexAdvances(readPos, m, bits);
      SizeShrinks(writePos, readPos, m);
      readPos := WordAdd(readPos, m);
    }

    /** Copy bytes into the free span at the write position, as a socket read or memcpy does. */
    method Poke(off: nat, data: seq<byte>)
      requires Valid() && |data| <= WritableSize() && off + |data| <= capacity
      requires |data| > 0 ==> off == Forward(capacity, MaskIndex(readPos, bits), ReadableSize())
      modifies buffer
      ensures Contents() == old(Contents()) && buffer[off..off + |data|] == data
    {
      ghost var before := buffer[..];
      forall i | 0 <= i < |data| {
        buffer[off + i] := data[i];
      }
      if |data| > 0 {
        WriteOutsideRing(before, buffer[..], capacity, MaskIndex(readPos, bits), ReadableSize(), off, |data|);
      } else {
        assert buffer[..] == before;
      }
    }

    /** Fill the free span and commit: what one socket read does. */
    method Append(data: seq<byte>, off: nat)
      requires Valid() && |data| <= WritableSize() && off + |data| <= capacity
      requires |data| > 0 ==> off == Forward(capacity, MaskIndex(readPos, bits), ReadableSize())
      modifies buffer, `writePos
      ensures Valid() && Contents() == old(Contents()) + data
    {
      Poke(off, data);
      CommitWrite(|data|);
    }

    /** `write`: all or nothing, in at most two pieces. */
    method Write(data: seq<byte>) returns (ok: bool)
      requires Valid()
      modifies buffer, `writePos
      ensures Valid() && (ok <==> |data| <= old(WritableSize()))
      ensures Contents() == if ok then old(Contents()) + data else old(Contents())
    {
      if data == [] {
        return true;
      }
      if |data| > WritableSize() {
        return false;
      }
      var off, len := Writable();
      if len >= |data| {
        Append(data, off);
      } else {
        WriteTwice(data, off, len);
      }
      return true;
    }

    /** The second piece starts at the physical beginning. */
    method WriteTwice(data: seq<byte>, off: nat, len: nat)
      requires Valid() && 0 < len < |data| <= WritableSize() && off + len == capacity
      requires off == Forward(capacity, MaskIndex(readPos, bits), ReadableSize())
      modifies buffer, `writePos
      ensures Valid() && Contents() == old(Contents()) + data
    {
      Append(data[..len], off);
      var off2, len2 := Writable();
      Append(data[len..], off2);
      Regroup(old(Contents()), data[..len], data[len..]);
      assert data == data[..len] + data[len..];
    }

    /** Grow the scratch buffer to n bytes if it is smaller; `canGrow` is whether the reallocation succeeds. */
    method GrowScratch(n: nat, canGrow: bool) returns (ok: bool)
      requires scratch != buffer && n > 0
      modifies `scratch
      ensures ok <==> canGrow || old(ScratchSize()) >= n
      ensures scratch == old(scratch) || fresh(scratch)
      ensures ok ==> scratch != null && scratch != buffer && scratch.Length >= n
      ensures ok && old(ScratchSize()) < n ==> ScratchSize() == n
      ensures !ok || old(ScratchSize()) >= n ==> scratch == old(scratch)
      ensures scratch != buffer
    {
      ok := true;
      if ScratchSize() < n {
        if canGrow {
          scratch := new byte[n](_ => 0);
        }
        ok := canGrow;
      }
    }

    /** Copy the two pieces of a wrapped range into the scratch buffer. */
    method CopyWrapped(r: nat, n: nat)
      requires scratch != null && scratch != buffer && n <= scratch.Length
      requires r < capacity <= buffer.Length && capacity < r + n && n <= capacity
      modifies scratch
      ensures scratch[..n] == Ring(buffer[..], capacity, r, n)
    {
      var toEnd := capacity - r;
      forall i | 0 <= i < toEnd {
        scratch[i] := buffer[r + i];
      }
      assert scratch[..toEnd] == buffer[..][r..capacity];
      forall i | 0 <= i < n - toEnd {
        scratch[toEnd + i] := buffer[i];
      }
      assert scratch[..toEnd] == buffer[..][r..capacity];
      assert scratch[toEnd..n] == buffer[..][..r + n - capacity];
      assert scratch[..n] == scratch[..toEnd] + scratch[toEnd..n];
    }

    /** The first n bytes wrap around the physical end. */
    ghost predicate Wraps(n: nat)
      reads this
    {
      MaskIndex(readPos, bits) + n > capacity
    }

    function ScratchSize(): nat
      reads this
    {
      if scratch == null then 0 else scratch.Length
    }

    /** The first n bytes need a larger scratch buffer, which is not to be had. */
    ghost predicate Starved(n: nat, canGrow: bool)
      reads this
    {
      Wraps(n) && !canGrow && ScratchSize() < n
    }

    /**
     `linearize`: the first n bytes in one piece, either in place or copied to the scratch buffer.
     A null array stands for the empty span returned on too little data or a failed reallocation.
     */
    method Linearize(n: nat, canGrow: bool) returns (arr: array?<byte>, off: nat)
      requires Valid()
      modifies `scratch, scratch
      ensures Valid() && Contents() == old(Contents())
      ensures arr == null <==> n > ReadableSize() || old(Starved(n, canGrow))
      ensures arr != null ==> off + n <= arr.Length && arr[off..off + n] == Contents()[..n]
      ensures arr != null && Wraps(n) && old(ScratchSize()) < n ==> ScratchSize() == n
      ensures arr == null || !Wraps(n) || old(ScratchSize()) >= n ==> scratch == old(scratch)
      ensures scratch == old(scratch) || fresh(scratch)
    {
      arr, off := null, 0;
      if ReadableSize() < n {
        return;
      }
      Indices();
      var r := And(readPos, mask);
      if capacity - r >= n {
        FirstBytes(n);
        return buffer, r;
      }
      arr := LinearizeWrapped(r, n, canGrow);
    }

    /** The copying path of `linearize`. */
    method LinearizeWrapped(r: nat, n: nat, canGrow: bool) returns (arr: array?<byte>)
      requires Valid() && n <= ReadableSize() && r == MaskIndex(readPos, bits) && Wraps(n)
      modifies `scratch, scratch
      ensures Valid() && Contents() == old(Contents())
      ensures arr == null <==> old(Starved(n, canGrow))
      ensures arr != null ==> n <= arr.Length && arr[..n] == Contents()[..n]
      ensures arr != null && old(ScratchSize()) < n ==> ScratchSize() == n
      ensures arr == null || old(ScratchSize()) >= n ==> scratch == old(scratch)
      ensures scratch == old(scratch) || fresh(scratch)
    {
      arr := null;
      FirstBytes(n);
      var ok := GrowScratch(n, canGrow);
      if ok {
        CopyWrapped(r, n);
        arr := scratch;
      }
    }

    lemma FirstBytes(n: nat)
      requires Valid() && n <= ReadableSize()
      ensures Contents()[..n] == Ring(buffer[..], capacity, MaskIndex(readPos, bits), n)
    {
      RingSplit(buffer[..], capacity, MaskIndex(readPos, bits), n, ReadableSize() - n);
    }

    /** `shrink_to_fit` touches only the scratch buffer. */
    method ShrinkToFit(canRealloc: bool)
      requires Valid()
      modifies `scratch
      ensures Valid() && Contents() == old(Contents())
      ensures scratch == old(scratch) || scratch == null || fresh(scratch)
      ensures old(scratch) == null || old(ReadableSize()) == 0 ==> scratch == null
      ensures old(scratch) != null && old(ReadableSize()) > 0 && (!canRealloc || old(scratch.Length) < 4 * old(ReadableSize())) ==>
                scratch == old(scratch)
      ensures old(scratch) != null && old(ReadableSize()) > 0 && canRealloc && old(scratch.Length) >= 4 * old(ReadableSize()) ==>
                scratch != null && scratch.Length == 2 * old(ReadableSize())
    {
      if scratch == null {
        return;
      }
      var usage := ReadableSize();
      if usage == 0 {
        scratch := null;
        return;
      }
      if scratch.Length >= usage * 4 && canRealloc {
        scratch := new byte[usage * 2](_ => 0);
      }
    }

    method Reset()
      requires Valid()
      modifies this
      ensures Valid() && Contents() == [] && scratch == null
    {
      readPos, writePos, scratch := 0, 0, null;
    }
  }
}
