/**
 The 12-byte big-endian frame header and the frames cut from a byte stream with it.
 */
module WireHeader {
  import opened Bits

  type u16 = x: int | 0 <= x < 0x1_0000
  type u32 = x: int | 0 <= x < 0x1_0000_0000

  const SIZE: nat := 12
  const CURRENT_VERSION: byte := 2
  const MAX_BODY_SIZE: nat := 16 * 1024 * 1024

  datatype Error = InsufficientData | UnsupportedProtocolVersion | BodyTooLarge

  datatype Result<T> = Ok(value: T) | Err(error: Error)

  datatype Header = Header(version: byte, flags: byte, msgId: u32, bodySize: u32, reserved: u16) {
    function FrameSize(): nat { SIZE + bodySize }
  }

  function Big32(x: u32): (s: seq<byte>)
    ensures |s| == 4
  {
    [x / 0x100_0000, (x / 0x1_0000) % 0x100, (x / 0x100) % 0x100, x % 0x100]
  }

  function Big16(x: u16): (s: seq<byte>)
    ensures |s| == 2
  {
    [x / 0x100, x % 0x100]
  }

  function Read32(s: seq<byte>): u32
    requires |s| == 4
  {
    s[0] as int * 0x100_0000 + s[1] as int * 0x1_0000 + s[2] as int * 0x100 + s[3] as int
  }

  function Read16(s: seq<byte>): u16
    requires |s| == 2
  {
    s[0] as int * 0x100 + s[1] as int
  }

  function Serialize(h: Header): (s: seq<byte>)
    ensures |s| == SIZE
  {
    [h.version, h.flags] + Big32(h.msgId) + Big32(h.bodySize) + Big16(h.reserved)
  }

  /** The version is checked first, the body size after all fields were read. */
  function Parse(data: seq<byte>): Result<Header> {
    if |data| < SIZE then Err(InsufficientData)
    else if data[0] != CURRENT_VERSION then Err(UnsupportedProtocolVersion)
    else
      var h := Header(data[0], data[1], Read32(data[2..6]), Read32(data[6..10]), Read16(data[10..12]));
      if h.bodySize > MAX_BODY_SIZE then Err(BodyTooLarge) else Ok(h)
  }

  /** The number in four or two bytes, most significant first. */
  function Number32(a: byte, b: byte, c: byte, d: byte): nat {
    ((a * 0x100 + b) * 0x100 + c) * 0x100 + d
  }

  function Number16(a: byte, b: byte): nat {
    a * 0x100 + b
  }

  /** The wire layout: version, flags, message id in bytes 2 to 5, body size in 6 to 9, reserved in 10 and 11. */
  lemma SerializedLayout(h: Header)
    ensures var s := Serialize(h);
            && s[0] == h.version && s[1] == h.flags
            && Number32(s[2], s[3], s[4], s[5]) == h.msgId && Number32(s[6], s[7], s[8], s[9]) == h.bodySize
            && Number16(s[10], s[11]) == h.reserved
  {
    Big32RoundTrip(h.msgId);
    Big32RoundTrip(h.bodySize);
  }

  /** Parsing reads the same places: too short, then a foreign version, then too large a body are the only errors. */
  lemma ParsedLayout(data: seq<byte>)
    ensures |data| < SIZE ==> Parse(data) == Err(InsufficientData)
    ensures |data| >= SIZE ==>
              var body := Number32(data[6], data[7], data[8], data[9]);
              Parse(data) ==
              if data[0] != CURRENT_VERSION then Err(UnsupportedProtocolVersion)
              else if body > MAX_BODY_SIZE then Err(BodyTooLarge)
              else
                Ok(Header(data[0], data[1], Number32(data[2], data[3], data[4], data[5]), body,
                          Number16(data[10], data[11])))
  {
  }

  lemma Big32RoundTrip(x: u32)
    ensures Read32(Big32(x)) == x
  {
    assert x / 0x100 == 0x100 * (x / 0x1_0000) + (x / 0x100) % 0x100;
    assert x / 0x1_0000 == 0x100 * (x / 0x100_0000) + (x / 0x1_0000) % 0x100;
  }

  lemma Read32RoundTrip(s: seq<byte>)
    requires |s| == 4
    ensures Big32(Read32(s)) == s
  {
    var x: int, a: int, b: int, c: int := Read32(s), s[0], s[1], s[2];
    assert x / 0x100 == a * 0x1_0000 + b * 0x100 + c;
    assert x / 0x1_0000 == a * 0x100 + b;
  }

  /** A serialized header parses back to itself exactly when its version is current and its body is not too large. */
  lemma HeaderRoundTrip(h: Header, rest: seq<byte>)
    ensures Parse(Serialize(h) + rest) == Ok(h) <==> h.version == CURRENT_VERSION && h.bodySize <= MAX_BODY_SIZE
  {
    var d := Serialize(h) + rest;
    assert d[2..6] == Big32(h.msgId) && d[6..10] == Big32(h.bodySize) && d[10..12] == Big16(h.reserved);
    Big32RoundTrip(h.msgId);
    Big32RoundTrip(h.bodySize);
    assert Read16(Big16(h.reserved)) == h.reserved;
  }

  /** A header that parses serializes to the very bytes it was read from. */
  lemma ParsedSerializesBack(data: seq<byte>)
    requires Parse(data).Ok?
    ensures Serialize(Parse(data).value) == data[..SIZE]
  {
    var h := Parse(data).value;
    Read32RoundTrip(data[2..6]);
    Read32RoundTrip(data[6..10]);
    assert Big16(h.reserved) == data[10..12];
    assert data[..SIZE] == [data[0], data[1]] + data[2..6] + data[6..10] + data[10..12];
  }
}

module FrameCodec {
  import opened Bits
  import opened RingBuffer
  import opened WireHeader

  datatype Frame = Frame(header: Header, payload: seq<byte>)

  /** The first frame of a byte string. */
  function Decode(s: seq<byte>): Result<Frame> {
    match Parse(s)
    case Err(e) => Err(e)
    case Ok(h) =>
      if |s| < h.FrameSize() then Err(InsufficientData) else Ok(Frame(h, s[SIZE..h.FrameSize()]))
  }

  /** What `encode` accepts: the size field must agree with the payload length cast to 32 bits. */
  predicate SizeAgrees(h: Header, payload: seq<byte>) {
    h.bodySize == |payload| % 0x1_0000_0000
  }

  /** Decoding the encoding of a frame gives it back, whatever follows, exactly for current, honest, bounded headers. */
  lemma FrameRoundTrip(h: Header, payload: seq<byte>, rest: seq<byte>)
    ensures Decode(Serialize(h) + payload + rest) == Ok(Frame(h, payload)) <==>
            h.version == CURRENT_VERSION && h.bodySize == |payload| <= MAX_BODY_SIZE
  {
    var s := Serialize(h) + payload + rest;
    assert s == Serialize(h) + (payload + rest);
    HeaderRoundTrip(h, payload + rest);
    if Parse(s) == Ok(h) && |s| >= h.FrameSize() {
      assert s[SIZE..h.FrameSize()] == (payload + rest)[..h.bodySize];
    }
  }

  /** A decoded frame encodes to exactly the bytes it consumes. */
  lemma DecodedEncodesBack(s: seq<byte>)
    requires Decode(s).Ok?
    ensures var f := Decode(s).value;
            SizeAgrees(f.header, f.payload) && Serialize(f.header) + f.payload == s[..f.header.FrameSize()]
  {
    ParsedSerializesBack(s);
    var f := Decode(s).value;
    assert s[..f.header.FrameSize()] == s[..SIZE] + s[SIZE..f.header.FrameSize()];
  }

  /** Whether the scratch buffer can be grown, once for the header and once for the whole frame. */
  datatype Memory = Memory(header: bool, frame: bool)

  /** `NullRead` stands for copying the header through the null pointer of an empty span. */
  datatype Decoded = Got(result: Result<Frame>) | NullRead

  /** What `try_decode` makes of a ring: the first frame of its contents, unless memory runs out. */
  ghost function Expected(buf: ByteRing, mem: Memory): Decoded
    reads buf, buf.buffer
    requires buf.Valid()
  {
    var s := buf.Contents();
    if |s| >= SIZE && buf.Starved(SIZE, mem.header) then NullRead
    else if Decode(s).Ok? && FrameStarved(buf, mem, Decode(s).value) then Got(Err(InsufficientData))
    else Got(Decode(s))
  }

  /** A frame of no more than a header needs no more memory than the header did. */
  ghost predicate FrameStarved(buf: ByteRing, mem: Memory, f: Frame)
    reads buf
  {
    f.header.bodySize > 0 && buf.Starved(f.header.FrameSize(), mem.frame)
  }

  /** `try_decode` agrees with decoding the contents, leaves them alone and names both failures of the memory. */
  method TryDecode(buf: ByteRing, mem: Memory) returns (d: Decoded)
    requires buf.Valid()
    modifies buf`scratch, buf.scratch
    ensures buf.Valid() && buf.Contents() == old(buf.Contents())
    ensures buf.scratch == old(buf.scratch) || fresh(buf.scratch)
    ensures d == old(Expected(buf, mem))
  {
    if buf.ReadableSize() < SIZE {
      return Got(Err(InsufficientData));
    }
    var arr, off := buf.Linearize(SIZE, mem.header);
    if arr == null {
      return NullRead;
    }
    ghost var s := buf.Contents();
    var parsed := Parse(arr[off..off + SIZE]);
    ParsePrefix(s);
    if parsed.Err? {
      return Got(Err(parsed.error));
    }
    if buf.ReadableSize() < parsed.value.FrameSize() {
      return Got(Err(InsufficientData));
    }
    var payload := TakePayload(buf, parsed.value.FrameSize(), mem.frame);
    match payload
    case Err(e) => return Got(Err(e));
    case Ok(p) => return Got(Ok(Frame(parsed.value, p)));
  }

  /** The second `linearize`, and what follows the header in its span. */
  method TakePayload(buf: ByteRing, total: nat, canGrow: bool) returns (r: Result<seq<byte>>)
    requires buf.Valid() && SIZE <= total <= buf.ReadableSize()
    modifies buf`scratch, buf.scratch
    ensures buf.Valid() && buf.Contents() == old(buf.Contents())
    ensures buf.scratch == old(buf.scratch) || fresh(buf.scratch)
    ensures r == if old(buf.Starved(total, canGrow)) then Err(InsufficientData) else Ok(buf.Contents()[SIZE..total])
  {
    var arr, off := buf.Linearize(total, canGrow);
    if arr == null {
      return Err(InsufficientData);
    }
    ghost var s := buf.Contents();
    assert arr[off..off + total] == s[..total];
    assert arr[off + SIZE..off + total] == s[SIZE..total];
    return Ok(arr[off + SIZE..off + total]);
  }

  /**
   Both failures occur: a ring of 32 bytes, 24 of which have come and gone, wraps inside the header of the next frame.
   Without memory the complete frame is reported as missing data, or its header is read through a null pointer.
   */
  method WrappedFrameRun(mem: Memory) returns (ring: ByteRing, d: Decoded)
    requires !mem.header || !mem.frame
    ensures fresh(ring) && ring.Valid() && Decode(ring.Contents()).Ok?
    ensures d == if mem.header then Got(Err(InsufficientData)) else NullRead
  {
    ring := TurnedRing();
    var bytes := SampleFrame();
    var ok := ring.Write(bytes);
    assert ring.Contents() == bytes;
    d := TryDecode(ring, mem);
  }

  /** An empty ring whose next byte is its 25th of 32. */
  method TurnedRing() returns (ring: ByteRing)
    ensures fresh(ring) && fresh(ring.buffer) && ring.Valid() && ring.Contents() == [] && ring.scratch == null
    ensures ring.capacity == 32 && MaskIndex(ring.readPos, ring.bits) == 24
  {
    assert Pow2(5) == 32;
    ring := new ByteRing(32, 5);
    var ok := ring.Write(seq(24, _ => 0));
    ring.Consume(24);
    MaskIsMod(24, 5);
  }

  method SampleFrame() returns (bytes: seq<byte>)
    ensures |bytes| == 20 && Decode(bytes).Ok? && Decode(bytes).value.header.bodySize == 8
  {
    var h, payload := Header(CURRENT_VERSION, 0, 1, 8, 0), seq(8, _ => 0);
    bytes := Serialize(h) + payload;
    FrameRoundTrip(h, payload, []);
    assert bytes == Serialize(h) + payload + [];
  }

  lemma ParsePrefix(s: seq<byte>)
    requires |s| >= SIZE
    ensures Parse(s[..SIZE]) == Parse(s)
  {
    assert s[..SIZE][2..6] == s[2..6] && s[..SIZE][6..10] == s[6..10] && s[..SIZE][10..12] == s[10..12];
  }

  lemma TakeMore(before: seq<byte>, data: seq<byte>, i: nat, n: nat)
    requires i + n <= |data|
    ensures before + data[..i] + data[i..i + n] == before + data[..i + n]
  {
  }

  /** Write a byte string through successive writable spans, as the loops of `encode` do. */
  method WriteThrough(buf: ByteRing, data: seq<byte>)
    requires buf.Valid() && |data| <= buf.WritableSize()
    modifies buf.buffer, buf`writePos
    ensures buf.Valid() && buf.Contents() == old(buf.Contents()) + data
  {
    var written := 0;
    while written < |data|
      invariant written <= |data| && buf.Valid()
      invariant buf.Contents() == old(buf.Contents()) + data[..written]
      decreases |data| - written
    {
      var off, len := buf.Writable();
      var n := if len < |data| - written then len else |data| - written;
      buf.Append(data[written..written + n], off);
      TakeMore(old(buf.Contents()), data, written, n);
      written := written + n;
    }
    assert data[..written] == data;
  }

  /** `encode`: append the frame to the ring, or change nothing. */
  method Encode(buf: ByteRing, h: Header, payload: seq<byte>) returns (ok: bool)
    requires buf.Valid()
    modifies buf.buffer, buf`writePos
    ensures buf.Valid()
    ensures ok <==> SizeAgrees(h, payload) && SIZE + |payload| <= old(buf.WritableSize())
    ensures buf.Contents() == if ok then old(buf.Contents()) + Serialize(h) + payload else old(buf.Contents())
  {
    if h.bodySize != |payload| % 0x1_0000_0000 {
      return false;
    }
    if buf.WritableSize() < SIZE + |payload| {
      return false;
    }
    WriteThrough(buf, Serialize(h));
    WriteThrough(buf, payload);
    return true;
  }

  /** `encode_to`: the frame at the start of a span, or 0 and nothing written. */
  method EncodeTo(out: array<byte>, h: Header, payload: seq<byte>) returns (n: nat)
    modifies out
    ensures n == if SizeAgrees(h, payload) && SIZE + |payload| <= out.Length then SIZE + |payload| else 0
    ensures n > 0 ==> out[..n] == Serialize(h) + payload && out[n..] == old(out[n..])
    ensures n == 0 ==> out[..] == old(out[..])
  {
    if h.bodySize != |payload| % 0x1_0000_0000 || out.Length < SIZE + |payload| {
      return 0;
    }
    var header := Serialize(h);
    forall i | 0 <= i < SIZE {
      out[i] := header[i];
    }
    forall i | 0 <= i < |payload| {
      out[SIZE + i] := payload[i];
    }
    n := SIZE + |payload|;
  }
}
