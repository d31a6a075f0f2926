/** The packet buffer and the loops that put packets on a socket and take them off it, step by step as
    the source does, proved against Codec and Fields. */
module PacketIO {
  import opened Codec
  import opened Common
  import opened Fields

  lemma ContinuationBit(bits: nat)
    requires bits < 128
    ensures Or(bits, 0x80) == bits + 128
  {
    ShiftsUsed(1);
    OrDisjoint(bits, 1, 7);
  }

  /** One turn of the length loop of `send`. */
  lemma NextByte(left: nat, written: seq<byte>)
    ensures var b: byte := left % 128 + if left / 128 > 0 then 128 else 0;
            var more := if left / 128 > 0 then EncodeLength(left / 128) else [];
            written + EncodeLength(left) == (written + [b]) + more
    ensures |written| < |written + EncodeLength(left)|
  {
  }

  /** `buffer` is `before` with `piece` laid over it from `start` on. */
  ghost predicate Laid(buffer: seq<byte>, before: seq<byte>, start: nat, piece: seq<byte>) {
    && start + |piece| <= |before| == |buffer|
    && buffer == before[..start] + piece + before[start + |piece|..]
  }

  lemma LaidNothing(before: seq<byte>, start: nat)
    requires start <= |before|
    ensures Laid(before, before, start, [])
  {
  }

  lemma LaidMore(buffer: seq<byte>, before: seq<byte>, start: nat, piece: seq<byte>, b: byte)
    requires Laid(buffer, before, start, piece) && start + |piece| < |buffer|
    ensures Laid(buffer[start + |piece| := b], before, start, piece + [b])
  {
  }

  lemma HeaderRoom(n: nat)
    ensures HeaderOffset(n) + 1 + |EncodeLength(n)| <= n + 5
  {
    LengthSizes(n);
  }

  lemma HeaderByte(kind: nat, flags: nat)
    requires 1 <= kind <= 14 && flags < 16
    ensures Or(Shl(kind, 4), flags) == kind * 16 + flags
  {
    ShiftsUsed(kind);
    OrDisjoint(flags, kind, 4);
  }

  lemma LaidFirst(before: seq<byte>, start: nat, b: byte)
    requires start < |before|
    ensures Laid(before[start := b], before, start, [b])
  {
  }

  lemma LaidBoth(b2: seq<byte>, b1: seq<byte>, b0: seq<byte>, start: nat, p: seq<byte>, q: seq<byte>)
    requires Laid(b1, b0, start, p) && Laid(b2, b1, start + |p|, q)
    ensures Laid(b2, b0, start, p + q)
  {
    Middle(b0[..start], p, b0[start + |p|..]);
    assert b1[..start + |p|] == b0[..start] + p;
    assert b1[start + |p| + |q|..] == b0[start + |p| + |q|..];
    assert b2 == b0[..start] + p + q + b0[start + |p| + |q|..];
  }

  lemma LaidFrom(buffer: seq<byte>, before: seq<byte>, start: nat, piece: seq<byte>)
    requires Laid(buffer, before, start, piece) && start + |piece| >= 5
    ensures buffer[start..] == piece + before[5..][start + |piece| - 5..]
    ensures start + |piece| == 5 ==> buffer[5..] == before[5..]
  {
    Middle(before[..start], piece, before[start + |piece|..]);
    assert before[5..][start + |piece| - 5..] == before[start + |piece|..];
  }

  lemma LaidSent(buffer: seq<byte>, before: seq<byte>, start: nat, f: Frame)
    requires |before| >= 5 && Typed(f) && f.body == before[5..] && start == HeaderOffset(|f.body|)
    requires Laid(buffer, before, start, Header(f))
    ensures buffer[start..] == SentBytes(f)
    ensures |f.body| <= MAX_LENGTH ==> buffer[5..] == before[5..]
  {
    HeaderFits(|f.body|);
    hide Laid, EncodeLength, HeaderOffset;
    LaidFrom(buffer, before, start, Header(f));
  }

  /** Both parts of the header in place leave the frame from the write offset on. */
  lemma LaidHeader(buffer: seq<byte>, before: seq<byte>, f: Frame)
    requires |before| >= 5 && Typed(f) && f.body == before[5..]
    requires var start := HeaderOffset(|f.body|);
             Laid(buffer, before[start := f.kind * 16 + f.flags], start + 1, EncodeLength(|f.body|))
    ensures buffer[HeaderOffset(|f.body|)..] == SentBytes(f)
    ensures |f.body| <= MAX_LENGTH ==> buffer[5..] == before[5..]
  {
    var start, first := HeaderOffset(|f.body|), f.kind * 16 + f.flags;
    LaidFirst(before, start, first);
    hide Laid, EncodeLength, HeaderOffset, SentBytes;
    LaidBoth(buffer, before[start := first], before, start, [first], EncodeLength(|f.body|));
    LaidSent(buffer, before, start, f);
  }

  /** class Packet: one byte buffer with a read and a write offset. */
  class Packet {
    var buffer: seq<byte>
    var readOffset: nat
    var writeOffset: nat
    const kind: nat
    const flags: nat

    /** A packet to send, with five bytes reserved for the header. */
    constructor Outgoing(kind: nat, flags: nat)
      ensures buffer == [0, 0, 0, 0, 0] && readOffset == 0 && writeOffset == 0
      ensures this.kind == kind && this.flags == flags
    {
      buffer, readOffset, writeOffset := [0, 0, 0, 0, 0], 0, 0;
      this.kind, this.flags := kind, flags;
    }

    /** A packet received. */
    constructor Incoming(kind: nat, flags: nat, data: seq<byte>)
      ensures buffer == data && readOffset == 0 && writeOffset == 0
      ensures this.kind == kind && this.flags == flags
    {
      buffer, readOffset, writeOffset := data, 0, 0;
      this.kind, this.flags := kind, flags;
    }

    method WriteU8(value: byte)
      modifies this`buffer
      ensures buffer == old(buffer) + Write(U8(value))
    {
      buffer := buffer + [value];
    }

    method WriteU16(value: nat)
      requires value < 0x10000
      modifies this`buffer
      ensures buffer == old(buffer) + Write(U16(value))
    {
      buffer := buffer + [value / 256];
      buffer := buffer + [value % 256];
    }

    method WriteText(text: seq<byte>)
      modifies this`buffer
      ensures buffer == old(buffer) + Write(Str(text))
    {
      WriteU16(|text| % 0x10000);
      buffer := buffer + text;
    }

    method WriteBytes(data: seq<byte>)
      modifies this`buffer
      ensures buffer == old(buffer) + data
    {
      buffer := buffer + data;
    }

    /** Every read leaves the offset inside the buffer. */
    predicate Valid()
      reads this
    {
      readOffset <= |buffer|
    }

    method ReadU8() returns (ok: bool, value: byte)
      requires Valid()
      modifies this`readOffset
      ensures Valid() && readOffset == ReadField(ShapeU8, buffer, old(readOffset)).next
      ensures ok == ReadField(ShapeU8, buffer, old(readOffset)).Value?
      ensures ok ==> ReadField(ShapeU8, buffer, old(readOffset)).field == U8(value)
    {
      ok, value := false, 0;
      if |buffer| < readOffset + 1 {
        return;
      }
      value := buffer[readOffset];
      readOffset := readOffset + 1;
      ok := true;
    }

    method ReadU16() returns (ok: bool, value: nat)
      requires Valid()
      modifies this`readOffset
      ensures Valid() && readOffset == ReadField(ShapeU16, buffer, old(readOffset)).next
      ensures ok == ReadField(ShapeU16, buffer, old(readOffset)).Value?
      ensures ok ==> ReadField(ShapeU16, buffer, old(readOffset)).field == U16(value)
    {
      ok, value := false, 0;
      if |buffer| < readOffset + 2 {
        return;
      }
      value := Shl(buffer[readOffset], 8);
      readOffset := readOffset + 1;
      value := Or(value, buffer[readOffset]);
      readOffset := readOffset + 1;
      ok := true;
    }

    method ReadText() returns (ok: bool, text: seq<byte>)
      requires Valid()
      modifies this`readOffset
      ensures Valid() && readOffset == ReadField(ShapeStr, buffer, old(readOffset)).next
      ensures ok == ReadField(ShapeStr, buffer, old(readOffset)).Value?
      ensures ok ==> ReadField(ShapeStr, buffer, old(readOffset)).field == Str(text)
    {
      text := [];
      var length;
      ok, length := ReadU16();
      if !ok {
        return;
      }
      if |buffer| < readOffset + length {
        return false, [];
      }
      text := buffer[readOffset..readOffset + length];
      readOffset := readOffset + length;
    }

    method ReadRemaining() returns (text: seq<byte>)
      requires Valid()
      modifies this`readOffset
      ensures Valid() && text == buffer[old(readOffset)..] && readOffset == |buffer|
    {
      text := buffer[readOffset..];
      readOffset := |buffer|;
    }

    /** The frame this packet stands for before its header is set. */
    ghost function Body(): Frame
      requires |buffer| >= 5
      reads this
    {
      Frame(kind, flags, buffer[5..])
    }

    /** The do-while loop of `send`: seven bits a byte, written in place from `offset` on. */
    method WriteLength(offset: nat, length: nat)
      requires offset + |EncodeLength(length)| <= |buffer|
      modifies this`buffer
      ensures Laid(buffer, old(buffer), offset, EncodeLength(length))
    {
      var at, left := offset, length;
      ghost var written: seq<byte> := [];
      hide Laid, EncodeLength, Or;
      LaidNothing(buffer, offset);
      assert written + EncodeLength(left) == EncodeLength(length);
      while true
        invariant at == offset + |written| && written + EncodeLength(left) == EncodeLength(length)
        invariant offset + |EncodeLength(length)| <= |buffer| && Laid(buffer, old(buffer), offset, written)
        decreases left
      {
        var bits: nat := left % 128;
        ContinuationBit(bits);
        NextByte(left, written);
        left := left / 128;
        if left > 0 {
          bits := Or(bits, 0x80);
        }
        LaidMore(buffer, old(buffer), offset, written, bits);
        buffer := buffer[at := bits];
        at, written := at + 1, written + [bits];
        if !(left > 0) {
          Regroup(written, [], []);
          break;
        }
      }
    }

    /** The header code of `send`: right-aligned in the reserved bytes, written in place. */
    method SetHeader()
      requires |buffer| >= 5 && Typed(Body())
      modifies this`buffer, this`writeOffset
      ensures |buffer| == old(|buffer|) && writeOffset <= |buffer|
      ensures buffer[writeOffset..] == SentBytes(old(Body()))
      ensures |buffer| - 5 <= MAX_LENGTH ==> buffer[5..] == old(buffer[5..])
    {
      ghost var f, before := Body(), buffer;
      var length: nat := |buffer| - 5;
      HeaderRoom(length);
      HeaderByte(kind, flags);
      hide Laid, EncodeLength, Or, Shl, SentBytes, HeaderOffset;
      writeOffset := HeaderOffset(length);
      var first := Or(Shl(kind, 4), flags);
      buffer := buffer[writeOffset := first];
      assert buffer == before[writeOffset := kind * 16 + flags];
      WriteLength(writeOffset + 1, length);
      LaidHeader(buffer, before, f);
    }
  }

  /** The receiving side of a socket: what the peer has sent and `recv` has not yet returned. A call
      returns at least one byte and at most what was asked, however the system likes; it fails when
      nothing more comes. */
  class Stream {
    var pending: seq<byte>

    constructor (sent: seq<byte>)
      ensures pending == sent
    {
      pending := sent;
    }

    method Recv(length: nat) returns (chunk: seq<byte>)
      requires length > 0
      modifies this
      ensures chunk + pending == old(pending)
      ensures |chunk| <= length && (chunk == [] <==> old(pending) == [])
    {
      chunk := [];
      if pending != [] {
        var n :| 1 <= n <= length && n <= |pending|;
        chunk, pending := pending[..n], pending[n..];
      }
    }
  }

  datatype Received = Packet(frame: Frame) | Closed

  /** What the rest of the length loop will make of the stream when `i` bytes gave `value` so far. */
  ghost function Resume(value: nat, scale: nat, i: nat, s: seq<byte>): LengthResult
    requires i <= 4
  {
    match ParseLength(s, 4 - i)
    case Length(v, u) => Length(value + scale * v, i + u)
    case other => other
  }

  ghost function Scale(i: nat): nat
    requires i <= 4
  {
    if i == 0 then 1 else if i == 1 then 128 else if i == 2 then 16384 else if i == 3 then 2097152 else 268435456
  }

  lemma ShiftIn(value: nat, bits: nat, i: nat)
    requires i < 4 && value < Scale(i) && bits < 128
    ensures Or(value, Shl(bits, 7 * i)) == value + Scale(i) * bits < Scale(i + 1) == 128 * Scale(i)
  {
    ShiftsUsed(bits);
    OrDisjoint(value, bits, 7 * i);
  }

  lemma Distribute(scale: nat, bits: nat, v: nat)
    ensures scale * (bits + 128 * v) == scale * bits + (128 * scale) * v
  {
  }

  /** What one more byte makes of the rest. */
  lemma ResumeStep(value: nat, scale: nat, i: nat, s: seq<byte>)
    requires i < 4 && s != []
    ensures var next := value + scale * (s[0] % 128);
            Resume(value, scale, i, s) ==
            if s[0] < 128 then Length(next, i + 1) else Resume(next, 128 * scale, i + 1, s[1..])
  {
    var rest := ParseLength(s[1..], 3 - i);
    if s[0] >= 128 && rest.Length? {
      Distribute(scale, s[0] - 128, rest.value);
    }
  }

  /** One byte of the length, shifted and or-ed in. */
  lemma LengthStep(all: seq<byte>, value: nat, i: nat)
    requires i < 4 && i < |all| && value < Scale(i)
    requires ParseLength(all, 4) == Resume(value, Scale(i), i, all[i..])
    ensures var next := Or(value, Shl(all[i] % 128, 7 * i));
            && next < Scale(i + 1)
            && (all[i] < 128 ==> ParseLength(all, 4) == Length(next, i + 1))
            && (all[i] >= 128 ==> ParseLength(all, 4) == Resume(next, Scale(i + 1), i + 1, all[i + 1..]))
  {
    ShiftIn(value, all[i] % 128, i);
    ResumeStep(value, Scale(i), i, all[i..]);
    hide Or, Shl, ParseLength, Resume, Scale;
    assert all[i..][1..] == all[i + 1..];
  }

  /** Where the length loop begins and how it ends: with a starved stream, or after four bytes. */
  lemma LengthEnds(all: seq<byte>, value: nat, scale: nat, i: nat)
    requires i <= 4
    ensures ParseLength(all, 4) == Resume(0, Scale(0), 0, all[0..])
    ensures i < 4 ==> Resume(value, scale, i, []) == Short
    ensures Resume(value, scale, 4, all) == TooLong
  {
    assert all[0..] == all;
  }

  /** The length loop: up to four bytes, shifted and or-ed together. */
  method RecvLength(stream: Stream) returns (ok: bool, length: nat)
    modifies stream
    ensures ok == ParseLength(old(stream.pending), 4).Length?
    ensures |stream.pending| <= |old(stream.pending)|
    ensures ok ==> ParseLength(old(stream.pending), 4) == Length(length, |old(stream.pending)| - |stream.pending|)
    ensures ok ==> stream.pending == old(stream.pending)[|old(stream.pending)| - |stream.pending|..]
  {
    ghost var all := stream.pending;
    length := 0;
    var last: byte := 0;
    var i := 0;
    LengthEnds(all, 0, 1, 0);
    hide ParseLength, Resume, Or, Shl;
    while i < 4
      invariant 0 <= i <= 4 && i <= |all| && stream.pending == all[i..]
      invariant length < Scale(i) && (i > 0 ==> last >= 128)
      invariant ParseLength(all, 4) == Resume(length, Scale(i), i, all[i..])
    {
      LengthEnds(all, length, Scale(i), i);
      var chunk := stream.Recv(1);
      if |chunk| == 0 {
        assert all[i..] == [];
        return false, length;
      }
      last := chunk[0];
      assert all[i..] == [last] + stream.pending;
      LengthStep(all, length, i);
      length := Or(length, Shl(last % 128, 7 * i));
      i := i + 1;
      if last < 128 {
        break;
      }
      LengthEnds(all[i..], length, Scale(i), i);
    }
    ok := last < 128;
  }

  /** The body loop: chunks of any size until the body is complete or the stream ends. */
  method RecvBody(stream: Stream, length: nat) returns (data: seq<byte>)
    modifies stream
    ensures length <= |old(stream.pending)| ==>
              data == old(stream.pending)[..length] && stream.pending == old(stream.pending)[length..]
    ensures |data| == length <==> length <= |old(stream.pending)|
  {
    ghost var all := stream.pending;
    data := [];
    while |data| != length
      invariant |data| <= length && data + stream.pending == all
      decreases length - |data|
    {
      var chunk := stream.Recv(length - |data|);
      if |chunk| == 0 {
        return;
      }
      data := data + chunk;
    }
  }

  /** The framing half of `recvLoop`. However `recv` cuts the stream, the outcome is the one Codec reads. */
  method RecvFrame(stream: Stream) returns (r: Received)
    modifies stream
    ensures match ParseFrame(old(stream.pending))
            case Got(f, rest) => r == Received.Packet(f) && stream.pending == rest
            case _ => r == Closed
  {
    ghost var all := stream.pending;
    var chunk := stream.Recv(1);
    if |chunk| == 0 {
      return Closed;
    }
    var first := chunk[0];
    assert all == [first] + stream.pending;
    var kind, flags := first / 16, first % 16;
    if kind < 1 || kind > 14 {
      return Closed;
    }
    assert stream.pending == all[1..];
    var ok, length := RecvLength(stream);
    if !ok {
      return Closed;
    }
    ParseLengthUsed(all[1..], 4);
    var body := RecvBody(stream, length);
    if |body| != length {
      return Closed;
    }
    r := Received.Packet(Frame(kind, flags, body));
  }

  /** The sending side of a socket: a call takes at least one byte, or fails and takes none. */
  class Wire {
    var bytes: seq<byte>
    /** How many calls of `send` have failed. */
    ghost var failures: nat

    constructor ()
      ensures bytes == [] && failures == 0
    {
      bytes, failures := [], 0;
    }

    method Send(data: seq<byte>) returns (ok: bool, n: nat)
      requires data != []
      modifies this
      ensures ok ==> 1 <= n <= |data| && bytes == old(bytes) + data[..n]
      ensures !ok ==> bytes == old(bytes)
      ensures failures == old(failures) + if ok then 0 else 1
    {
      ok := *;
      n := 0;
      if ok {
        var k :| 1 <= k <= |data|;
        n, bytes := k, bytes + data[..k];
      } else {
        failures := failures + 1;
      }
    }
  }

  lemma Extend(s: seq<byte>, start: nat, mid: nat, n: nat)
    requires start <= mid && mid + n <= |s|
    ensures s[start..mid] + s[mid..][..n] == s[start..mid + n]
  {
  }

  /** The loop of `sendPacket`: partial writes add up to the whole buffer from the write offset on, unless a write
      fails; then a beginning of it has gone out, and no write is tried again. */
  method SendPacket(packet: Packet, wire: Wire) returns (ok: bool)
    requires packet.writeOffset <= |packet.buffer|
    modifies packet`writeOffset, wire
    ensures old(packet.writeOffset) <= packet.writeOffset <= |packet.buffer|
    ensures wire.bytes == old(wire.bytes) + packet.buffer[old(packet.writeOffset)..packet.writeOffset]
    ensures ok ==> packet.writeOffset == |packet.buffer|
    ensures !ok ==> packet.writeOffset < |packet.buffer|
    ensures wire.failures == old(wire.failures) + if ok then 0 else 1
  {
    var start := packet.writeOffset;
    while packet.writeOffset < |packet.buffer|
      invariant wire.failures == old(wire.failures)
      invariant start <= packet.writeOffset <= |packet.buffer|
      invariant wire.bytes == old(wire.bytes) + packet.buffer[start..packet.writeOffset]
      decreases |packet.buffer| - packet.writeOffset
    {
      var sent, n := wire.Send(packet.buffer[packet.writeOffset..]);
      if !sent {
        return false;
      }
      Extend(packet.buffer, start, packet.writeOffset, n);
      packet.writeOffset := packet.writeOffset + n;
    }
    ok := true;
  }

  /** A packet built, headed and written without error puts its frame on the wire. */
  method Transmit(packet: Packet, wire: Wire) returns (ok: bool)
    requires |packet.buffer| >= 5 && Typed(packet.Body())
    modifies packet`buffer, packet`writeOffset, wire
    ensures ok ==> wire.bytes == old(wire.bytes) + SentBytes(old(packet.Body()))
    ensures !ok ==> exists k :: 0 <= k < |SentBytes(old(packet.Body()))| &&
                                wire.bytes == old(wire.bytes) + SentBytes(old(packet.Body()))[..k]
    ensures wire.failures == old(wire.failures) + if ok then 0 else 1
  {
    packet.SetHeader();
    var start := packet.writeOffset;
    ghost var sent := packet.buffer[start..];
    ok := SendPacket(packet, wire);
    ghost var k := packet.writeOffset - start;
    assert packet.buffer[start..packet.writeOffset] == sent[..k];
    assert sent[..|sent|] == sent;
  }

  /** The framing half of `recvLoop`, repeated until it fails: the frames are those Codec reads, whatever the
      chunks. */
  method ReceiveAll(stream: Stream) returns (frames: seq<Frame>)
    modifies stream
    ensures frames == ParseStream(old(stream.pending))
  {
    frames := [];
    while true
      invariant frames + ParseStream(stream.pending) == ParseStream(old(stream.pending))
      decreases |stream.pending|
    {
      ghost var s := stream.pending;
      var r := RecvFrame(stream);
      if r == Closed {
        break;
      }
      ParseFrameShrinks(s);
      frames := frames + [r.frame];
    }
  }

  const RESERVED: seq<byte> := [0, 0, 0, 0, 0]

  lemma AfterReserved(body: seq<byte>)
    ensures (RESERVED + body)[5..] == body
  {
  }

  /** One packet built, headed and written. */
  method TransmitFrame(f: Frame, wire: Wire) returns (ok: bool)
    requires Typed(f)
    modifies wire
    ensures ok ==> wire.bytes == old(wire.bytes) + SentBytes(f)
    ensures !ok ==> exists k :: 0 <= k < |SentBytes(f)| && wire.bytes == old(wire.bytes) + SentBytes(f)[..k]
    ensures wire.failures == old(wire.failures) + if ok then 0 else 1
  {
    var packet := new Packet.Outgoing(f.kind, f.flags);
    packet.WriteBytes(f.body);
    AfterReserved(f.body);
    hide SentBytes;
    assert packet.Body() == f;
    ok := Transmit(packet, wire);
  }

  lemma NextSent(fs: seq<Frame>, k: nat)
    requires AllTyped(fs) && k < |fs|
    ensures AllTyped(fs[..k]) && AllTyped(fs[..k + 1]) && Typed(fs[k])
    ensures SentStream(fs[..k + 1]) == SentStream(fs[..k]) + SentBytes(fs[k])
    ensures SentStream(fs[..k + 1]) <= SentStream(fs)
  {
    hide Typed, SentBytes, SentStream;
    TypedAt(fs, k);
    SentStreamPrefix(fs, k);
    SentStreamPrefix(fs, k + 1);
    assert fs[..k + 1] == fs[..k] + [fs[k]];
    SentStreamAppend(fs[..k], fs[k]);
  }

  /** Packets sent one after the other, until a write fails. */
  method TransmitAll(frames: seq<Frame>, wire: Wire) returns (ok: bool)
    requires AllTyped(frames) && wire.bytes == []
    modifies wire
    ensures wire.bytes <= SentStream(frames)
    ensures ok <==> wire.bytes == SentStream(frames)
    ensures wire.failures == old(wire.failures) + if ok then 0 else 1
  {
    ok := true;
    for k := 0 to |frames|
      invariant wire.failures == old(wire.failures)
      invariant AllTyped(frames[..k]) && wire.bytes == SentStream(frames[..k])
    {
      hide AllTyped, Typed, SentBytes, SentStream;
      NextSent(frames, k);
      ok := TransmitFrame(frames[k], wire);
      if !ok {
        return;
      }
    }
    assert frames[..|frames|] == frames;
  }

  /** From the sender's packets to the receiver's, over a connection that may break after any byte: however the
      writes and the reads are cut, what is received is what went out whole before the first packet that is too
      long. When no write fails, that is everything exactly if no packet is too long. */
  method Exchange(frames: seq<Frame>, wire: Wire) returns (received: seq<Frame>)
    requires AllTyped(frames) && wire.bytes == []
    modifies wire
    ensures received <= frames
    ensures wire.bytes <= SentStream(frames) && received == Arrived(frames, |wire.bytes|)
    ensures wire.failures == old(wire.failures) <==> wire.bytes == SentStream(frames)
    ensures wire.failures == old(wire.failures) ==> (received == frames <==> AllSendable(frames))
  {
    var ok := TransmitAll(frames, wire);
    assert wire.bytes == SentStream(frames)[..|wire.bytes|];
    StreamRoundTrip(frames, |wire.bytes|);
    WholeStreamIff(frames);
    var stream := new Stream(wire.bytes);
    received := ReceiveAll(stream);
  }

  // ---- The packets of the client --------------------------------------------------------------

  /** The flag byte of sendConnect. */
  method BuildConnectFlags(willTopic: seq<byte>, retain: bool) returns (flags: byte)
    ensures flags == if willTopic == [] then 2 else if retain then 38 else 6
    ensures flags == ConnectFlags(willTopic, retain)
  {
    var bits: nat := Or(0, Shl(1, 1));
    if willTopic != [] {
      bits := Or(bits, Shl(1, 2));
      bits := Or(bits, Shl(0, 3));
      if retain {
        bits := Or(bits, Shl(1, 5));
      }
    }
    ConnectFlagsValue(willTopic, retain);
    flags := bits;
  }

  lemma Gather(a: seq<byte>, b: seq<byte>, c: seq<byte>, d: seq<byte>, e: seq<byte>)
    ensures a + b + c + d + e == a + (b + c + d + e)
  {
  }

  /** The variable header of sendConnect. */
  method BuildConnectHeader(flags: byte) returns (packet: Packet)
    ensures fresh(packet) && packet.kind == 1 && packet.flags == 0
    ensures packet.buffer == RESERVED + ConnectHeader(flags)
  {
    packet := new Packet.Outgoing(1, 0);
    packet.WriteText(MQTT);
    packet.WriteU8(4);
    packet.WriteU8(flags);
    packet.WriteU16(30);
    Gather(RESERVED, WriteString(MQTT), [4], [flags], WriteUint16(30));
  }

  /** sendConnect. */
  method BuildConnect(clientId: seq<byte>, willTopic: seq<byte>, willMessage: seq<byte>, retain: bool)
    returns (packet: Packet)
    ensures fresh(packet) && |packet.buffer| >= 5
    ensures packet.Body() == Frame(1, 0, ConnectBody(clientId, willTopic, willMessage, retain))
  {
    var flags := BuildConnectFlags(willTopic, retain);
    hide WriteString, ConnectHeader, ConnectFlags;
    packet := BuildConnectHeader(flags);
    packet.WriteText(clientId);
    ghost var head := ConnectHeader(flags) + WriteString(clientId);
    Regroup(RESERVED, ConnectHeader(flags), WriteString(clientId));
    ghost var will := if willTopic == [] then [] else WriteString(willTopic) + WriteString(willMessage);
    if willTopic != [] {
      packet.WriteText(willTopic);
      packet.WriteText(willMessage);
      Regroup(RESERVED + head, WriteString(willTopic), WriteString(willMessage));
    }
    Regroup(RESERVED, head, will);
    AfterReserved(head + will);
  }

  /** sendPublish. */
  method BuildPublish(topic: seq<byte>, message: seq<byte>, retain: bool) returns (packet: Packet)
    ensures fresh(packet) && |packet.buffer| >= 5
    ensures packet.Body() == Frame(3, if retain then 1 else 0, PublishBody(topic, message))
  {
    packet := new Packet.Outgoing(3, if retain then 1 else 0);
    hide WriteString;
    packet.WriteText(topic);
    packet.WriteBytes(message);
    Regroup(RESERVED, WriteString(topic), message);
    AfterReserved(PublishBody(topic, message));
  }

  /** sendSubscribe, with the packet id already taken. */
  method BuildSubscribe(id: nat, filter: seq<byte>) returns (packet: Packet)
    requires id < 0x10000
    ensures fresh(packet) && |packet.buffer| >= 5
    ensures packet.Body() == Frame(8, 2, SubscribeBody(id, filter))
  {
    packet := new Packet.Outgoing(8, 2);
    hide WriteString, WriteUint16;
    packet.WriteU16(id);
    packet.WriteText(filter);
    packet.WriteU8(0);
    Regroup(RESERVED, WriteUint16(id), WriteString(filter));
    Regroup(RESERVED, WriteUint16(id) + WriteString(filter), [0]);
    AfterReserved(SubscribeBody(id, filter));
  }

  /** sendUnsubscribe, with the packet id already taken. */
  method BuildUnsubscribe(id: nat, filter: seq<byte>) returns (packet: Packet)
    requires id < 0x10000
    ensures fresh(packet) && |packet.buffer| >= 5
    ensures packet.Body() == Frame(10, 2, UnsubscribeBody(id, filter))
  {
    packet := new Packet.Outgoing(10, 2);
    hide WriteString, WriteUint16;
    packet.WriteU16(id);
    packet.WriteText(filter);
    Regroup(RESERVED, WriteUint16(id), WriteString(filter));
    AfterReserved(UnsubscribeBody(id, filter));
  }

  /** sendPingRequest. */
  method BuildPing() returns (packet: Packet)
    ensures fresh(packet) && |packet.buffer| >= 5
    ensures packet.Body() == Frame(12, 0, [])
  {
    packet := new Packet.Outgoing(12, 0);
  }

  /** The PUBLISH case of `recvLoop`. */
  method TakePublish(frame: Frame) returns (r: Publish)
    ensures r == ParsePublish(frame.body)
  {
    var packet := new Packet.Incoming(frame.kind, frame.flags, frame.body);
    var ok, topic := packet.ReadText();
    if !ok {
      return NotPublish;
    }
    var message := packet.ReadRemaining();
    r := Publish(topic, message);
  }

  /** The CONNACK case of `recvLoop`: the connection is up exactly for a second byte of zero. */
  method TakeConnack(frame: Frame) returns (up: bool)
    ensures up <==> |frame.body| >= 2 && frame.body[1] == 0
  {
    var packet := new Packet.Incoming(frame.kind, frame.flags, frame.body);
    var ok, acknowledge := packet.ReadU8();
    if !ok {
      return false;
    }
    var code;
    ok, code := packet.ReadU8();
    if !ok {
      return false;
    }
    up := code == 0;
  }

  /** The SUBACK case of `recvLoop`: a packet id, then a return code; one above 2 is reported. */
  method TakeSuback(frame: Frame) returns (e: Event)
    ensures e == if |frame.body| < 3 then Refuse else if frame.body[2] > 2 then SubscribeFailed else Nothing
  {
    var packet := new Packet.Incoming(frame.kind, frame.flags, frame.body);
    var ok, id := packet.ReadU16();
    if !ok {
      return Refuse;
    }
    var code;
    ok, code := packet.ReadU8();
    if !ok {
      return Refuse;
    }
    e := if code > 2 then SubscribeFailed else Nothing;
  }

  /** The UNSUBACK case of `recvLoop`: a packet id. */
  method TakeUnsuback(frame: Frame) returns (e: Event)
    ensures e == if |frame.body| < 2 then Refuse else Nothing
  {
    var packet := new Packet.Incoming(frame.kind, frame.flags, frame.body);
    var ok, id := packet.ReadU16();
    e := if ok then Nothing else Refuse;
  }

  /** The switch of `recvLoop`. The client goes up for an accepting CONNACK (type 2), runs callbacks for a PUBLISH
      (3) with a topic, reports a SUBACK (9) with a return code above 2, and refuses what is too short for its
      fields and every type but these, UNSUBACK (11) and PINGRESP (13). */
  method Take(frame: Frame) returns (e: Event)
    ensures e == Meaning(frame)
    ensures e == GoUp <==> frame.kind == 2 && |frame.body| >= 2 && frame.body[1] == 0
    ensures e.Arrival? <==> frame.kind == 3 && CutString(frame.body).Piece?
    ensures e.Arrival? ==> CutString(frame.body) == Piece(e.topic, e.message)
    ensures e == SubscribeFailed <==> frame.kind == 9 && |frame.body| >= 3 && frame.body[2] > 2
    ensures e == Refuse <==>
            || frame.kind !in {2, 3, 9, 11, 13}
            || (frame.kind == 2 && (|frame.body| < 2 || frame.body[1] != 0))
            || (frame.kind == 3 && CutString(frame.body) == NoPiece)
            || (frame.kind == 9 && |frame.body| < 3)
            || (frame.kind == 11 && |frame.body| < 2)
  {
    ParsePublishIs(frame.body);
    hide ParsePublish, CutString;
    if frame.kind == CONNACK {
      var up := TakeConnack(frame);
      e := if up then GoUp else Refuse;
    } else if frame.kind == PUBLISH {
      var m := TakePublish(frame);
      e := if m.Publish? then Arrival(m.topic, m.message) else Refuse;
    } else if frame.kind == SUBACK {
      e := TakeSuback(frame);
    } else if frame.kind == UNSUBACK {
      e := TakeUnsuback(frame);
    } else {
      e := if frame.kind == PINGRESP then Nothing else Refuse;
    }
  }

  /** `recvLoop`, called until it fails: however the stream is cut, the client does what the packets that
      arrived whole say, up to the first one it refuses. */
  method RecvLoops(stream: Stream) returns (events: seq<Event>)
    modifies stream
    ensures events == Understood(ParseStream(old(stream.pending)))
  {
    events := [];
    while true
      invariant events + Understood(ParseStream(stream.pending)) == Understood(ParseStream(old(stream.pending)))
      decreases |stream.pending|
    {
      ghost var s := stream.pending;
      var r := RecvFrame(stream);
      if r == Closed {
        break;
      }
      ParseFrameShrinks(s);
      assert ParseStream(s)[1..] == ParseStream(stream.pending);
      var e := Take(r.frame);
      if e == Refuse {
        break;
      }
      hide Meaning;
      Regroup(events, [e], Understood(ParseStream(stream.pending)));
      events := events + [e];
    }
  }
}
