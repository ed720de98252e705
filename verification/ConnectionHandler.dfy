/**
 The per-connection read loop: socket reads go into the receive ring, complete frames
 are cut from it and dispatched, and the connection closes on a malformed header, on a
 full buffer, when a handler closes the session or when the peer stops sending.
 */
module ConnectionHandler {
  import opened Bits
  import opened RingBuffer
  import opened WireHeader
  import opened FrameCodec

  /** What a byte stream contains: its complete frames, the bytes after them, and whether those are malformed. */
  datatype Parsed = Parsed(frames: seq<Frame>, rest: seq<byte>, malformed: bool)

  function Greedy(s: seq<byte>): Parsed
    decreases |s|
  {
    match Decode(s)
    case Err(e) => Parsed([], s, e != InsufficientData)
    case Ok(f) => Prepend([f], Greedy(s[f.header.FrameSize()..]))
  }

  function Prepend(frames: seq<Frame>, p: Parsed): Parsed {
    p.(frames := frames + p.frames)
  }

  // ---- A stream is the bytes of its frames, then the rest ----

  function Wire(f: Frame): seq<byte> {
    Serialize(f.header) + f.payload
  }

  function Bytes(frames: seq<Frame>): seq<byte> {
    if frames == [] then [] else Bytes(frames[..|frames| - 1]) + Wire(frames[|frames| - 1])
  }

  /** The frames that survive a trip over the wire. */
  predicate Sendable(f: Frame) {
    f.header.version == CURRENT_VERSION && f.header.bodySize == |f.payload| <= MAX_BODY_SIZE
  }

  predicate AllSendable(frames: seq<Frame>) {
    forall i | 0 <= i < |frames| :: Sendable(frames[i])
  }

  lemma DecodedIsWire(s: seq<byte>)
    requires Decode(s).Ok?
    ensures Sendable(Decode(s).value)
    ensures s == Wire(Decode(s).value) + s[Decode(s).value.header.FrameSize()..]
  {
    DecodedEncodesBack(s);
  }

  lemma GreedyOfWire(f: Frame, rest: seq<byte>)
    requires Sendable(f)
    ensures Greedy(Wire(f) + rest) == Prepend([f], Greedy(rest))
  {
    FrameRoundTrip(f.header, f.payload, rest);
    assert (Wire(f) + rest)[f.header.FrameSize()..] == rest;
  }

  lemma PrependBoth(a: seq<Frame>, b: seq<Frame>, p: Parsed)
    ensures Prepend(a, Prepend(b, p)) == Prepend(a + b, p)
  {
    assert a + (b + p.frames) == (a + b) + p.frames;
  }

  /** Parsing is unique: the greedy parse of frames followed by anything starts with exactly those frames. */
  lemma {:induction false} GreedyOfBytes(frames: seq<Frame>, rest: seq<byte>)
    requires AllSendable(frames)
    ensures Greedy(Bytes(frames) + rest) == Prepend(frames, Greedy(rest))
    decreases |frames|
  {
    if frames == [] {
      assert [] + rest == rest;
      assert [] + Greedy(rest).frames == Greedy(rest).frames;
    } else {
      var k := |frames| - 1;
      var f := frames[k];
      GlueFront(Bytes(frames[..k]) + (Wire(f) + rest), Bytes(frames[..k]), Wire(f) + rest, Wire(f), rest);
      GreedyOfBytes(frames[..k], Wire(f) + rest);
      GreedyOfWire(f, rest);
      PrependBoth(frames[..k], [f], Greedy(rest));
      assert frames[..k] + [f] == frames;
    }
  }

  /** The greedy parse accounts for every byte: it is a partition of the stream. */
  lemma {:induction false} GreedyPartitions(s: seq<byte>)
    ensures var p := Greedy(s);
            && AllSendable(p.frames) && s == Bytes(p.frames) + p.rest
            && Decode(p.rest).Err? && (p.malformed <==> Decode(p.rest).error != InsufficientData)
    decreases |s|
  {
    match Decode(s)
    case Err(e) =>
      assert s == Bytes([]) + s;
    case Ok(f) =>
      var t := s[f.header.FrameSize()..];
      DecodedIsWire(s);
      GreedyPartitions(t);
      var p := Greedy(t);
      BytesCons(f, p.frames);
      GlueFront(s, Wire(f), t, Bytes(p.frames), p.rest);
      ConsSendable(f, p.frames);
  }

  lemma GlueFront(s: seq<byte>, w: seq<byte>, t: seq<byte>, b: seq<byte>, rest: seq<byte>)
    requires s == w + t && t == b + rest
    ensures s == (w + b) + rest
  {
  }

  lemma GlueBack(s: seq<byte>, b: seq<byte>, rest: seq<byte>, chunk: seq<byte>, more: seq<byte>, rest': seq<byte>)
    requires s == b + rest && rest + chunk == more + rest'
    ensures s + chunk == (b + more) + rest'
  {
    assert s + chunk == b + (rest + chunk);
  }

  lemma ConsSendable(f: Frame, frames: seq<Frame>)
    requires Sendable(f) && AllSendable(frames)
    ensures AllSendable([f] + frames)
  {
  }

  lemma {:induction false} BytesCons(f: Frame, frames: seq<Frame>)
    ensures Bytes([f] + frames) == Wire(f) + Bytes(frames)
    decreases |frames|
  {
    if frames == [] {
      assert [f] + frames == [f];
      assert Bytes([f][..0]) == [];
    } else {
      var k := |frames| - 1;
      BytesCons(f, frames[..k]);
      assert ([f] + frames)[..k + 1] == [f] + frames[..k];
      GlueFront(Wire(f) + Bytes(frames), Wire(f), Bytes(frames), Bytes(frames[..k]), Wire(frames[k]));
    }
  }

  // ---- The parse does not depend on how the stream is cut ----

  /** More bytes never change a header that is malformed. */
  lemma MalformedStays(s: seq<byte>, t: seq<byte>)
    requires Decode(s).Err? && Decode(s).error != InsufficientData
    ensures Decode(s + t) == Decode(s)
  {
    ParsePrefix(s);
    ParsePrefix(s + t);
    assert (s + t)[..SIZE] == s[..SIZE];
  }

  /** Appending bytes keeps the frames found so far and goes on parsing from the rest. */
  lemma GreedyAppend(s: seq<byte>, t: seq<byte>)
    ensures Greedy(s + t) == Prepend(Greedy(s).frames, Greedy(Greedy(s).rest + t))
    ensures Greedy(s).malformed ==> Greedy(s + t) == Parsed(Greedy(s).frames, Greedy(s).rest + t, true)
  {
    GreedyPartitions(s);
    var p := Greedy(s);
    GlueFront(Bytes(p.frames) + (p.rest + t), Bytes(p.frames), p.rest + t, p.rest, t);
    GreedyOfBytes(p.frames, p.rest + t);
    if p.malformed {
      MalformedStays(p.rest, t);
      assert p.frames + [] == p.frames;
    }
  }

  function Concat(chunks: seq<seq<byte>>): seq<byte> {
    if chunks == [] then [] else Concat(chunks[..|chunks| - 1]) + chunks[|chunks| - 1]
  }

  /** Feed chunks one at a time, keeping only the frames found so far and the undecoded rest. */
  function Feed(chunks: seq<seq<byte>>): Parsed {
    if chunks == [] then Parsed([], [], false)
    else
      var p := Feed(chunks[..|chunks| - 1]);
      Prepend(p.frames, Greedy(p.rest + chunks[|chunks| - 1]))
  }

  /** Chunking independence: however a stream is split, feeding the pieces parses the whole. */
  lemma {:induction false} FeedIsGreedy(chunks: seq<seq<byte>>)
    ensures Feed(chunks) == Greedy(Concat(chunks))
  {
    if chunks == [] {
    } else {
      var k := |chunks| - 1;
      FeedIsGreedy(chunks[..k]);
      GreedyAppend(Concat(chunks[..k]), chunks[k]);
    }
  }

  // ---- The frame loop ----

  /** No handler of the frames numbered from .. from + n closes the session. */
  ghost predicate NobodyCloses(n: nat, from: nat, closes: nat -> bool) {
    forall i: nat | from <= i < from + n :: !closes(i)
  }

  /** Whether undecoded bytes wait for more data or can never become a frame. */
  predicate Waiting(s: seq<byte>) {
    Decode(s) == Err(InsufficientData)
  }

  predicate Broken(s: seq<byte>) {
    Decode(s).Err? && Decode(s).error != InsufficientData
  }

  /** The ring starts with a complete frame, which stays there when memory for it runs out. */
  predicate Complete(s: seq<byte>) {
    Decode(s).Ok?
  }

  /** How a frame loop ends: `Open` goes on reading, `Crashed` has read through a null pointer. */
  datatype Stop = Open | HandlerClosed | Malformed | Crashed

  /** A pass that found no frame to dispatch, what it left in the ring and the memory it had. */
  predicate Stopped(stop: Stop, rest: seq<byte>, mem: Memory) {
    match stop
    case Open => Waiting(rest) || (Complete(rest) && !mem.frame)
    case HandlerClosed => false
    case Malformed => Broken(rest)
    case Crashed => |rest| >= SIZE && !mem.header
  }

  datatype Next = Cut(frame: Frame) | Stop(why: Stop)

  /** Take the next complete frame off the ring, or find out why there is none. */
  method NextFrame(ring: ByteRing, mem: Memory) returns (r: Next)
    requires ring.Valid()
    modifies ring`scratch, ring.scratch, ring`readPos
    ensures ring.Valid() && (ring.scratch == old(ring.scratch) || fresh(ring.scratch))
    ensures r.Cut? ==> Sendable(r.frame) && old(ring.Contents()) == Wire(r.frame) + ring.Contents()
    ensures r.Stop? ==> ring.Contents() == old(ring.Contents()) && Stopped(r.why, ring.Contents(), mem)
  {
    ghost var s := ring.Contents();
    var d := TryDecode(ring, mem);
    match d
    case NullRead => return Stop(Crashed);
    case Got(Err(e)) => return Stop(if e == InsufficientData then Open else Malformed);
    case Got(Ok(f)) =>
      DecodedIsWire(s);
      ring.Consume(f.header.FrameSize());
      return Cut(f);
  }

  /** How n dispatched frames ended; `mem` is the memory of the last attempt to cut one. */
  ghost predicate Dispatched(n: nat, stop: Stop, from: nat, rest: seq<byte>, closes: nat -> bool, mem: Memory) {
    if stop.HandlerClosed? then n > 0 && closes(from + n - 1) && NobodyCloses(n - 1, from, closes)
    else NobodyCloses(n, from, closes) && Stopped(stop, rest, mem)
  }

  /**
   `process_frames`: dispatch complete frames until data or memory runs out, a header is malformed or the handler of a
   frame closes the session. Frames are counted from `from`: number i closes it if `closes(i)`, and `memory(i)` says
   whether the scratch buffer can grow for it.
   */
  method ProcessFrames(ring: ByteRing, from: nat, closes: nat -> bool, memory: nat -> Memory)
    returns (frames: seq<Frame>, stop: Stop)
    requires ring.Valid()
    modifies ring`scratch, ring.scratch, ring`readPos
    ensures ring.Valid() && (ring.scratch == old(ring.scratch) || fresh(ring.scratch))
    ensures Split(old(ring.Contents()), frames, ring.Contents())
    ensures Dispatched(|frames|, stop, from, ring.Contents(), closes, memory(from + |frames|))
  {
    frames, stop := [], Open;
    ghost var all := ring.Contents();
    assert all == Bytes([]) + all;
    var go := true;
    while go
      invariant ring.Valid() && (ring.scratch == old(ring.scratch) || fresh(ring.scratch))
      invariant Split(all, frames, ring.Contents())
      invariant go ==> NobodyCloses(|frames|, from, closes)
      invariant !go ==> Dispatched(|frames|, stop, from, ring.Contents(), closes, memory(from + |frames|))
      decreases |ring.Contents()|, go
    {
      frames, go, stop := DispatchNext(ring, from, frames, closes, memory, all);
    }
  }

  /** One pass of the frame loop: dispatch the next frame, or find out why there is none. */
  method DispatchNext(
    ring: ByteRing, from: nat, frames: seq<Frame>, closes: nat -> bool, memory: nat -> Memory, ghost all: seq<byte>)
    returns (more: seq<Frame>, go: bool, stop: Stop)
    requires ring.Valid() && Split(all, frames, ring.Contents()) && NobodyCloses(|frames|, from, closes)
    modifies ring`scratch, ring.scratch, ring`readPos
    ensures ring.Valid() && (ring.scratch == old(ring.scratch) || fresh(ring.scratch))
    ensures Split(all, more, ring.Contents()) && |ring.Contents()| <= |old(ring.Contents())|
    ensures go ==> NobodyCloses(|more|, from, closes) && |ring.Contents()| < |old(ring.Contents())|
    ensures !go ==> Dispatched(|more|, stop, from, ring.Contents(), closes, memory(from + |more|))
  {
    ghost var s := ring.Contents();
    var r := NextFrame(ring, memory(from + |frames|));
    ghost var t := ring.Contents();
    match r
    case Stop(why) =>
      more, go, stop := frames, false, why;
      PassEnds(|frames|, why, from, t, closes, memory(from + |frames|));
    case Cut(f) =>
      more, go, stop := frames + [f], !closes(from + |frames|), HandlerClosed;
      PassDispatches(all, frames, f, s, t, from, closes, memory(from + |more|));
  }

  lemma PassEnds(n: nat, stop: Stop, from: nat, rest: seq<byte>, closes: nat -> bool, mem: Memory)
    requires NobodyCloses(n, from, closes) && Stopped(stop, rest, mem)
    ensures Dispatched(n, stop, from, rest, closes, mem)
  {
  }

  lemma PassDispatches(
    all: seq<byte>, frames: seq<Frame>, f: Frame, s: seq<byte>, t: seq<byte>, from: nat, closes: nat -> bool,
    mem: Memory)
    requires Split(all, frames, s) && s == Wire(f) + t && Sendable(f) && NobodyCloses(|frames|, from, closes)
    ensures Split(all, frames + [f], t) && |t| < |s|
    ensures if closes(from + |frames|) then Dispatched(|frames| + 1, HandlerClosed, from, t, closes, mem)
            else NobodyCloses(|frames| + 1, from, closes)
  {
    SplitMore(all, frames, f, s, t);
    OneMoreDispatched(|frames|, from, t, closes, mem);
  }

  lemma OneMoreDispatched(n: nat, from: nat, rest: seq<byte>, closes: nat -> bool, mem: Memory)
    requires NobodyCloses(n, from, closes)
    ensures if closes(from + n) then Dispatched(n + 1, HandlerClosed, from, rest, closes, mem)
            else NobodyCloses(n + 1, from, closes)
  {
  }

  /** A byte string is the wire form of `frames`, then `rest`. */
  ghost predicate Split(bytes: seq<byte>, frames: seq<Frame>, rest: seq<byte>) {
    AllSendable(frames) && bytes == Bytes(frames) + rest
  }

  lemma SplitMore(bytes: seq<byte>, frames: seq<Frame>, f: Frame, s: seq<byte>, t: seq<byte>)
    requires Split(bytes, frames, s) && s == Wire(f) + t && Sendable(f)
    ensures Split(bytes, frames + [f], t) && |t| < |s|
  {
    BytesSnoc(frames, f, s, t);
  }

  lemma BytesSnoc(frames: seq<Frame>, f: Frame, s: seq<byte>, t: seq<byte>)
    requires s == Wire(f) + t && AllSendable(frames) && Sendable(f)
    ensures Bytes(frames) + s == Bytes(frames + [f]) + t && AllSendable(frames + [f])
    ensures |t| < |s|
  {
    assert (frames + [f])[..|frames|] == frames;
    assert Bytes(frames) + (Wire(f) + t) == Bytes(frames) + Wire(f) + t;
  }

  // ---- The read loop ----

  datatype Ending = PeerStopped | ClosedElsewhere | BufferFull | ByHandler | ByMalformed | ByCrash

  function Least(a: nat, b: nat): nat {
    if a < b then a else b
  }

  /** One successful socket read: store the bytes, then run the frame loop. */
  method ReadOnce(ring: ByteRing, chunk: seq<byte>, off: nat, from: nat, closes: nat -> bool, memory: nat -> Memory)
    returns (more: seq<Frame>, stop: Stop)
    requires ring.Valid() && |chunk| <= ring.WritableSize() && off + |chunk| <= ring.capacity
    requires |chunk| > 0 ==> off == Forward(ring.capacity, Bits.MaskIndex(ring.readPos, ring.bits), ring.ReadableSize())
    modifies ring, ring.buffer, ring.scratch
    ensures ring.Valid() && (ring.scratch == old(ring.scratch) || fresh(ring.scratch))
    ensures Split(old(ring.Contents()) + chunk, more, ring.Contents())
    ensures Dispatched(|more|, stop, from, ring.Contents(), closes, memory(from + |more|))
  {
    ring.Append(chunk, off);
    more, stop := ProcessFrames(ring, from, closes, memory);
  }

  /** Everything received is the bytes of the dispatched frames, then the buffered rest. */
  ghost predicate Synced(stream: seq<byte>, received: nat, frames: seq<Frame>, rest: seq<byte>) {
    received <= |stream| && AllSendable(frames) && stream[..received] == Bytes(frames) + rest
  }

  lemma SyncedAfterRead(
    stream: seq<byte>, received: nat, n: nat, frames: seq<Frame>, rest: seq<byte>, more: seq<Frame>, rest': seq<byte>)
    requires Synced(stream, received, frames, rest) && received + n <= |stream|
    requires AllSendable(more) && rest + stream[received..received + n] == Bytes(more) + rest'
    ensures Synced(stream, received + n, frames + more, rest')
  {
    var chunk := stream[received..received + n];
    BytesAppend(frames, more);
    GlueBack(stream[..received], Bytes(frames), rest, chunk, Bytes(more), rest');
    assert stream[..received + n] == stream[..received] + chunk;
  }

  /** Why the loop ended, in terms of the frames dispatched and the bytes left over. */
  ghost predicate EndedBy(ending: Ending, frames: seq<Frame>, rest: seq<byte>, capacity: nat, closes: nat -> bool) {
    match ending
    case ByHandler => frames != [] && closes(|frames| - 1) && NobodyCloses(|frames| - 1, 0, closes)
    case ByMalformed => NobodyCloses(|frames|, 0, closes) && Broken(rest)
    case ByCrash => NobodyCloses(|frames|, 0, closes) && |rest| >= SIZE
    case PeerStopped => NobodyCloses(|frames|, 0, closes) && !Broken(rest)
    case ClosedElsewhere => NobodyCloses(|frames|, 0, closes) && !Broken(rest)
    case BufferFull => NobodyCloses(|frames|, 0, closes) && !Broken(rest) && |rest| == capacity
  }

  /** The endings that leave undispatched bytes which are not malformed. */
  predicate Leaves(ending: Ending) {
    ending.PeerStopped? || ending.ClosedElsewhere? || ending.BufferFull?
  }

  function EndingOf(stop: Stop): Ending {
    match stop
    case Open => PeerStopped
    case HandlerClosed => ByHandler
    case Malformed => ByMalformed
    case Crashed => ByCrash
  }

  /** One round of the read loop; `stop` is whether the loop ends, and `ending` why. */
  method ReadRound(
    ring: ByteRing, stream: seq<byte>, before: seq<Frame>, at: nat, size: nat, closes: nat -> bool,
    memory: nat -> Memory)
    returns (frames: seq<Frame>, received: nat, stop: bool, ending: Ending)
    requires ring.Valid() && Synced(stream, at, before, ring.Contents())
    requires NobodyCloses(|before|, 0, closes) && !Broken(ring.Contents())
    modifies ring, ring.buffer, ring.scratch
    ensures ring.Valid() && (ring.scratch == old(ring.scratch) || fresh(ring.scratch))
    ensures Synced(stream, received, frames, ring.Contents())
    ensures EndedBy(ending, frames, ring.Contents(), ring.capacity, closes)
    ensures (!stop ==> ending == PeerStopped && received > at) && ending != ClosedElsewhere
    ensures stop && ending == PeerStopped ==> received == |stream| || size == 0
    ensures Leaves(ending) && Complete(ring.Contents()) ==> Complete(old(ring.Contents())) || !memory(|frames|).frame
    ensures ending == ByCrash ==> !memory(|frames|).header
  {
    frames, received, stop, ending := before, at, true, PeerStopped;
    var off, len := ring.Writable();
    if len == 0 {
      ending := BufferFull;
      return;
    }
    var n := Least(Least(len, size), |stream| - received);
    if n == 0 {
      return;
    }
    var why;
    frames, why := ReadSome(ring, stream, before, at, n, off, closes, memory);
    received, stop, ending := at + n, !why.Open?, EndingOf(why);
  }

  /** The part of a round that follows a socket read of n bytes into the span at `off`. */
  method ReadSome(
    ring: ByteRing, stream: seq<byte>, before: seq<Frame>, at: nat, n: nat, off: nat, closes: nat -> bool,
    memory: nat -> Memory)
    returns (frames: seq<Frame>, why: Stop)
    requires ring.Valid() && Synced(stream, at, before, ring.Contents()) && NobodyCloses(|before|, 0, closes)
    requires at + n <= |stream| && 0 < n <= ring.WritableSize() && off + n <= ring.capacity
    requires off == Forward(ring.capacity, Bits.MaskIndex(ring.readPos, ring.bits), ring.ReadableSize())
    modifies ring, ring.buffer, ring.scratch
    ensures ring.Valid() && (ring.scratch == old(ring.scratch) || fresh(ring.scratch))
    ensures Synced(stream, at + n, frames, ring.Contents())
    ensures EndedBy(EndingOf(why), frames, ring.Contents(), ring.capacity, closes)
    ensures why.Open? && Complete(ring.Contents()) ==> !memory(|frames|).frame
    ensures why.Crashed? ==> !memory(|frames|).header
  {
    ghost var rest := ring.Contents();
    var more;
    more, why := ReadOnce(ring, stream[at..at + n], off, |before|, closes, memory);
    ghost var left := ring.Contents();
    SyncedAfterRead(stream, at, n, before, rest, more, left);
    RoundEnds(before, more, why, left, ring.capacity, closes, memory(|before| + |more|));
    frames := before + more;
  }

  lemma RoundEnds(
    before: seq<Frame>, more: seq<Frame>, stop: Stop, rest: seq<byte>, capacity: nat, closes: nat -> bool, mem: Memory)
    requires NobodyCloses(|before|, 0, closes)
    requires Dispatched(|more|, stop, |before|, rest, closes, mem)
    ensures EndedBy(EndingOf(stop), before + more, rest, capacity, closes)
    ensures (stop.Open? && Complete(rest) ==> !mem.frame) && (stop.Crashed? ==> !mem.header)
  {
  }

  /** Some growth of the scratch buffer was refused, for a header or for a whole frame. */
  ghost predicate RefusedHeader(memory: nat -> nat -> Memory) {
    exists k: nat, i: nat :: !memory(k)(i).header
  }

  ghost predicate RefusedFrame(memory: nat -> nat -> Memory) {
    exists k: nat, i: nat :: !memory(k)(i).frame
  }

  /**
   `read_loop`. The peer sends `stream`; the k-th socket read returns at most `sizes(k)` bytes of it, and a
   read of nothing or the end of `budget` is the peer's stop. The session is found closed after frame i when
   `closes(i)`, whoever closed it, and before the k-th read unless `stays(k)`; `memory(k)(i)` is the memory there is
   for frame i after the k-th read. A complete frame is left over only for want of memory.
   */
  method ReadLoop(
    ring: ByteRing, stream: seq<byte>, sizes: nat -> nat, budget: nat, closes: nat -> bool, stays: nat -> bool,
    memory: nat -> nat -> Memory)
    returns (frames: seq<Frame>, received: nat, ending: Ending)
    requires ring.Valid() && ring.Contents() == []
    modifies ring, ring.buffer, ring.scratch
    ensures ring.Valid() && Synced(stream, received, frames, ring.Contents())
    ensures EndedBy(ending, frames, ring.Contents(), ring.capacity, closes)
    ensures ending == ClosedElsewhere ==> exists k: nat :: k < budget && !stays(k)
    ensures ending == PeerStopped ==> received == |stream| || received >= budget || exists k: nat :: sizes(k) == 0
    ensures Leaves(ending) && Complete(ring.Contents()) ==> RefusedFrame(memory)
    ensures ending == ByCrash ==> RefusedHeader(memory)
  {
    frames, received, ending := [], 0, PeerStopped;
    assert stream[..0] == Bytes([]) + [];
    for k := 0 to budget
      invariant ring.Valid() && (ring.scratch == old(ring.scratch) || fresh(ring.scratch))
      invariant Synced(stream, received, frames, ring.Contents())
      invariant received >= k && ending == PeerStopped
      invariant EndedBy(ending, frames, ring.Contents(), ring.capacity, closes)
      invariant Complete(ring.Contents()) ==> RefusedFrame(memory)
    {
      if !stays(k) {
        ending := ClosedElsewhere;
        return;
      }
      var stop;
      frames, received, stop, ending := ReadRound(ring, stream, frames, received, sizes(k), closes, memory(k));
      if stop {
        return;
      }
    }
  }

  lemma {:induction false} BytesAppend(a: seq<Frame>, b: seq<Frame>)
    ensures Bytes(a + b) == Bytes(a) + Bytes(b)
    decreases |b|
  {
    if b == [] {
      assert a + b == a;
    } else {
      var k := |b| - 1;
      BytesAppend(a, b[..k]);
      assert (a + b)[..|a| + k] == a + b[..k];
      GlueFront(Bytes(a) + Bytes(b), Bytes(a), Bytes(b), Bytes(b[..k]), Wire(b[k]));
    }
  }

  /**
   What the read loop's result means, however the reads were split: the dispatched frames begin the greedy parse of
   everything received. They are all of it unless a handler closed the session, the loop crashed or a complete frame
   is held back for want of memory, and in the last case they are not.
   */
  lemma ReadLoopIsGreedy(
    stream: seq<byte>, received: nat, frames: seq<Frame>, rest: seq<byte>, ending: Ending, capacity: nat,
    closes: nat -> bool)
    requires Synced(stream, received, frames, rest) && EndedBy(ending, frames, rest, capacity, closes)
    ensures frames <= Greedy(stream[..received]).frames
    ensures ending == ByMalformed ==> Greedy(stream[..received]) == Parsed(frames, rest, true)
    ensures Leaves(ending) ==>
              if Complete(rest) then |frames| < |Greedy(stream[..received]).frames|
              else Greedy(stream[..received]) == Parsed(frames, rest, false)
  {
    GreedyOfBytes(frames, rest);
    assert frames + [] == frames;
  }

  /** A full ring that still waits holds the start of a frame larger than the ring. */
  lemma FullMeansTooLarge(rest: seq<byte>, capacity: nat)
    requires Waiting(rest) && |rest| == capacity >= SIZE
    ensures Parse(rest).Ok? && Parse(rest).value.FrameSize() > capacity
  {
  }
}
