/** The fields inside a packet body, and the CONNECT body read back by an independent parser of
    section 3.1 of MQTT 3.1.1. */
module Fields {
  import opened Codec
  import opened Common

  datatype Field = U8(value: byte) | U16(number: nat) | Str(text: seq<byte>)

  datatype Shape = ShapeU8 | ShapeU16 | ShapeStr

  function ShapeOf(f: Field): Shape {
    match f
    case U8(_) => ShapeU8
    case U16(_) => ShapeU16
    case Str(_) => ShapeStr
  }

  /** The values the C++ types can hold. */
  predicate InRange(f: Field) {
    f.U16? ==> f.number < 0x10000
  }

  function WriteUint16(n: nat): seq<byte>
    requires n < 0x10000
  {
    [n / 256, n % 256]
  }

  /** The length is cut to 16 bits, the text is not. */
  function WriteString(text: seq<byte>): seq<byte> {
    WriteUint16(|text| % 0x10000) + text
  }

  function Write(f: Field): seq<byte>
    requires InRange(f)
  {
    match f
    case U8(v) => [v]
    case U16(n) => WriteUint16(n)
    case Str(text) => WriteString(text)
  }

  /** One read at `offset`: the value, or none, and the offset afterwards. */
  datatype Read = Value(field: Field, next: nat) | Malformed(next: nat)

  function ReadUint16(buffer: seq<byte>, offset: nat): nat
    requires offset + 2 <= |buffer|
  {
    Or(Shl(buffer[offset], 8), buffer[offset + 1])
  }

  function ReadField(shape: Shape, buffer: seq<byte>, offset: nat): (r: Read)
    requires offset <= |buffer|
    ensures offset <= r.next <= |buffer|
  {
    match shape
    case ShapeU8 =>
      if |buffer| < offset + 1 then Malformed(offset) else Value(U8(buffer[offset]), offset + 1)
    case ShapeU16 =>
      if |buffer| < offset + 2 then Malformed(offset) else Value(U16(ReadUint16(buffer, offset)), offset + 2)
    case ShapeStr =>
      if |buffer| < offset + 2 then Malformed(offset)
      else
        var n := ReadUint16(buffer, offset);
        // A string cut short has already consumed its length.
        if |buffer| < offset + 2 + n then Malformed(offset + 2)
        else Value(Str(buffer[offset + 2..offset + 2 + n]), offset + 2 + n)
  }

  datatype Cut = Piece(text: seq<byte>, rest: seq<byte>) | NoPiece

  /** Section 1.5.2: most significant byte first. */
  function Number(high: nat, low: nat): nat {
    256 * high + low
  }

  /** Section 1.5.3: two bytes of length, most significant first, then the text. */
  function CutString(s: seq<byte>): Cut {
    if |s| < 2 || |s| < 2 + Number(s[0], s[1]) then NoPiece
    else
      var n := Number(s[0], s[1]);
      Piece(s[2..2 + n], s[2 + n..])
  }

  /** A read succeeds exactly when the field lies inside the buffer, with the value sections 1.5.2 and 1.5.3 give
      it; a string cut short leaves the offset after its length. */
  lemma ReadFieldIs(shape: Shape, buffer: seq<byte>, offset: nat)
    requires offset <= |buffer|
    ensures var r, left := ReadField(shape, buffer, offset), buffer[offset..];
            match shape
            case ShapeU8 => r == if |left| < 1 then Malformed(offset) else Value(U8(left[0]), offset + 1)
            case ShapeU16 =>
              r == if |left| < 2 then Malformed(offset) else Value(U16(Number(left[0], left[1])), offset + 2)
            case ShapeStr =>
              && (r.Value? <==> |left| >= 2 && |left| >= 2 + Number(left[0], left[1]))
              && (r.Value? ==> CutString(left) == Piece(r.field.text, buffer[r.next..]))
              && (!r.Value? ==> r.next == if |left| < 2 then offset else offset + 2)
  {
    var left := buffer[offset..];
    if |left| >= 2 {
      assert left[0] == buffer[offset] && left[1] == buffer[offset + 1];
      ShiftsUsed(left[0]);
      OrDisjoint(left[1], left[0], 8);
      assert ReadUint16(buffer, offset) == Number(left[0], left[1]);
    }
  }

  lemma Uint16RoundTrip(n: nat, buffer: seq<byte>, offset: nat)
    requires n < 0x10000 && offset + 2 <= |buffer| && buffer[offset..offset + 2] == WriteUint16(n)
    ensures ReadUint16(buffer, offset) == n
  {
    assert buffer[offset] == buffer[offset..offset + 2][0] == n / 256;
    assert buffer[offset + 1] == buffer[offset..offset + 2][1] == n % 256;
    ShiftsUsed(n / 256);
    OrDisjoint(n % 256, n / 256, 8);
  }

  function WriteAll(fs: seq<Field>): seq<byte>
    requires forall i :: 0 <= i < |fs| ==> InRange(fs[i])
  {
    if fs == [] then [] else Write(fs[0]) + WriteAll(fs[1..])
  }

  /** Reads of the given shapes, one after the other, until one fails. */
  function ReadAll(shapes: seq<Shape>, buffer: seq<byte>, offset: nat): (r: (seq<Field>, nat))
    requires offset <= |buffer|
    ensures offset <= r.1 <= |buffer|
  {
    if shapes == [] then ([], offset)
    else
      match ReadField(shapes[0], buffer, offset)
      case Malformed(next) => ([], next)
      case Value(f, next) =>
        var (fs, end) := ReadAll(shapes[1..], buffer, next);
        ([f] + fs, end)
  }

  /** The buffer holds `piece` at `offset`. */
  predicate Holds(buffer: seq<byte>, offset: nat, piece: seq<byte>) {
    offset + |piece| <= |buffer| && buffer[offset..offset + |piece|] == piece
  }

  lemma HoldsBoth(buffer: seq<byte>, offset: nat, a: seq<byte>, b: seq<byte>)
    requires Holds(buffer, offset, a + b)
    ensures Holds(buffer, offset, a) && Holds(buffer, offset + |a|, b)
  {
    var both := buffer[offset..offset + |a + b|];
    assert both[..|a|] == a && both[|a|..] == b;
  }

  /** The length prefix can say how long the text is. */
  predicate ShortEnough(f: Field) {
    f.Str? ==> |f.text| <= 0xFFFF
  }

  /** A field is read back exactly when it is short enough; otherwise a shorter text is read. */
  lemma FieldReadBackIff(f: Field, buffer: seq<byte>, offset: nat)
    requires InRange(f) && Holds(buffer, offset, Write(f))
    ensures ShortEnough(f) ==> ReadField(ShapeOf(f), buffer, offset) == Value(f, offset + |Write(f)|)
    ensures !ShortEnough(f) ==>
              var r := ReadField(ShapeOf(f), buffer, offset);
              r.Value? && r.field != f
  {
    match f
    case U8(v) => assert buffer[offset..offset + 1][0] == v;
    case U16(n) => Uint16RoundTrip(n, buffer, offset);
    case Str(text) =>
      HoldsBoth(buffer, offset, WriteUint16(|text| % 0x10000), text);
      Uint16RoundTrip(|text| % 0x10000, buffer, offset);
  }

  /** A string is read back exactly when it is at most 65535 bytes long. */
  lemma StringRoundTripIff(text: seq<byte>, pre: seq<byte>, post: seq<byte>)
    ensures ReadField(ShapeStr, pre + WriteString(text) + post, |pre|) == Value(Str(text), |pre| + 2 + |text|)
            <==> |text| <= 0xFFFF
  {
    var buffer := pre + WriteString(text) + post;
    Middle(pre, WriteString(text), post);
    assert Holds(buffer, |pre|, Write(Str(text)));
    hide WriteString;
    FieldReadBackIff(Str(text), buffer, |pre|);
    hide ReadField;
  }

  function Shapes(fs: seq<Field>): seq<Shape> {
    if fs == [] then [] else [ShapeOf(fs[0])] + Shapes(fs[1..])
  }

  predicate AllShortEnough(fs: seq<Field>) {
    fs != [] ==> ShortEnough(fs[0]) && AllShortEnough(fs[1..])
  }

  /** Whatever sequence of fields is written, reading the same shapes gives the same values exactly when every
      string is short enough; the reading then ends where the writing ended. */
  lemma {:induction false} FieldsRoundTripIff(fs: seq<Field>, buffer: seq<byte>, offset: nat)
    requires forall i :: 0 <= i < |fs| ==> InRange(fs[i])
    requires Holds(buffer, offset, WriteAll(fs))
    ensures ReadAll(Shapes(fs), buffer, offset).0 == fs <==> AllShortEnough(fs)
    ensures ReadAll(Shapes(fs), buffer, offset).0 == fs ==>
              ReadAll(Shapes(fs), buffer, offset).1 == offset + |WriteAll(fs)|
  {
    hide ReadField, Write, Holds, ShortEnough;
    if fs != [] {
      HoldsBoth(buffer, offset, Write(fs[0]), WriteAll(fs[1..]));
      FieldReadBackIff(fs[0], buffer, offset);
      FieldsRoundTripIff(fs[1..], buffer, offset + |Write(fs[0])|);
      assert Shapes(fs)[1..] == Shapes(fs[1..]);
      assert fs == [fs[0]] + fs[1..];
    }
  }

  // ---- PUBLISH ---------------------------------------------------------------------------

  function PublishBody(topic: seq<byte>, message: seq<byte>): seq<byte> {
    WriteString(topic) + message
  }

  datatype Publish = Publish(topic: seq<byte>, message: seq<byte>) | NotPublish

  /** What `recvLoop` makes of a PUBLISH body: a string, then everything that remains. */
  function ParsePublish(body: seq<byte>): Publish {
    match ReadField(ShapeStr, body, 0)
    case Malformed(_) => NotPublish
    case Value(f, next) => if f.Str? then Publish(f.text, body[next..]) else NotPublish
  }

  /** Section 3.3: the topic is a string, the message is the rest. */
  lemma ParsePublishIs(body: seq<byte>)
    ensures ParsePublish(body) ==
            match CutString(body) case Piece(topic, message) => Publish(topic, message) case NoPiece => NotPublish
  {
    assert body[0..] == body;
    ReadFieldIs(ShapeStr, body, 0);
  }

  /** A published message arrives as it was sent exactly when its topic is at most 65535 bytes. */
  lemma PublishRoundTripIff(topic: seq<byte>, message: seq<byte>)
    ensures ParsePublish(PublishBody(topic, message)) == Publish(topic, message) <==> |topic| <= 0xFFFF
  {
    var body := PublishBody(topic, message);
    assert body == [] + WriteString(topic) + message;
    StringRoundTripIff(topic, [], message);
    if |topic| <= 0xFFFF {
      assert body[2 + |topic|..] == message;
    }
  }

  // ---- Packets received --------------------------------------------------------------------

  const CONNACK := 2
  const PUBLISH := 3
  const SUBACK := 9
  const UNSUBACK := 11
  const PINGRESP := 13

  /** What the client does about a packet; `Refuse` closes the connection. */
  datatype Event = GoUp | Arrival(topic: seq<byte>, message: seq<byte>) | SubscribeFailed | Nothing | Refuse

  /** Section 3 of MQTT 3.1.1 as far as this client follows it: CONNACK must accept, PUBLISH must have a topic,
      SUBACK and UNSUBACK a packet id (and SUBACK a return code); every other packet but PINGRESP is refused. */
  function Meaning(f: Frame): Event {
    if f.kind == CONNACK then
      if |f.body| >= 2 && f.body[1] == 0 then GoUp else Refuse
    else if f.kind == PUBLISH then
      match ParsePublish(f.body)
      case Publish(topic, message) => Arrival(topic, message)
      case NotPublish => Refuse
    else if f.kind == SUBACK then
      if |f.body| < 3 then Refuse else if f.body[2] > 2 then SubscribeFailed else Nothing
    else if f.kind == UNSUBACK then
      if |f.body| < 2 then Refuse else Nothing
    else if f.kind == PINGRESP then Nothing
    else Refuse
  }

  /** What the client does about a list of packets, until it refuses one. */
  function Understood(fs: seq<Frame>): seq<Event> {
    if fs == [] || Meaning(fs[0]) == Refuse then [] else [Meaning(fs[0])] + Understood(fs[1..])
  }

  /** Messages published one after the other. */
  function PublishFrames(topics: seq<seq<byte>>, messages: seq<seq<byte>>): seq<Frame>
    requires |topics| == |messages|
  {
    if topics == [] then []
    else [Frame(PUBLISH, 0, PublishBody(topics[0], messages[0]))] + PublishFrames(topics[1..], messages[1..])
  }

  function Arrivals(topics: seq<seq<byte>>, messages: seq<seq<byte>>): seq<Event>
    requires |topics| == |messages|
  {
    if topics == [] then [] else [Arrival(topics[0], messages[0])] + Arrivals(topics[1..], messages[1..])
  }

  predicate ShortTopics(topics: seq<seq<byte>>) {
    topics != [] ==> |topics[0]| <= 0xFFFF && ShortTopics(topics[1..])
  }

  /** A list of messages is understood as it was published exactly when every topic is short enough. */
  lemma {:induction false} PublishedIsUnderstoodIff(topics: seq<seq<byte>>, messages: seq<seq<byte>>)
    requires |topics| == |messages|
    ensures Understood(PublishFrames(topics, messages)) == Arrivals(topics, messages) <==> ShortTopics(topics)
  {
    if topics != [] {
      PublishRoundTripIff(topics[0], messages[0]);
      PublishedIsUnderstoodIff(topics[1..], messages[1..]);
      hide PublishBody, ParsePublish;
      assert PublishFrames(topics, messages)[1..] == PublishFrames(topics[1..], messages[1..]);
      assert Arrivals(topics, messages)[1..] == Arrivals(topics[1..], messages[1..]);
    }
  }

  lemma {:induction false} PublishFramesTyped(topics: seq<seq<byte>>, messages: seq<seq<byte>>)
    requires |topics| == |messages|
    ensures AllTyped(PublishFrames(topics, messages)) && |PublishFrames(topics, messages)| == |topics|
    ensures |Arrivals(topics, messages)| == |topics|
  {
    if topics != [] {
      PublishFramesTyped(topics[1..], messages[1..]);
      hide PublishBody;
      assert PublishFrames(topics, messages)[1..] == PublishFrames(topics[1..], messages[1..]);
    }
  }

  /** The packets understood are those before the first one refused, each taken for what it means. */
  lemma {:induction false} UnderstoodIs(fs: seq<Frame>)
    ensures |Understood(fs)| <= |fs|
    ensures forall i :: 0 <= i < |Understood(fs)| ==> Understood(fs)[i] == Meaning(fs[i]) != Refuse
    ensures |Understood(fs)| < |fs| ==> Meaning(fs[|Understood(fs)|]) == Refuse
  {
    hide Meaning;
    if fs != [] { UnderstoodIs(fs[1..]); }
  }

  /** From the publisher's messages to the receiver's: the stream of a list of messages is understood as it was
      published exactly when every topic is short enough and no packet is too long. */
  lemma PublishedStreamIff(topics: seq<seq<byte>>, messages: seq<seq<byte>>)
    requires |topics| == |messages|
    ensures AllTyped(PublishFrames(topics, messages))
    ensures var frames := PublishFrames(topics, messages);
            Understood(ParseStream(SentStream(frames))) == Arrivals(topics, messages)
            <==> ShortTopics(topics) && AllSendable(frames)
  {
    PublishFramesTyped(topics, messages);
    var frames := PublishFrames(topics, messages);
    var all := SentStream(frames);
    assert all[..|all|] == all;
    StreamRoundTrip(frames, |all|);
    ArrivedWhole(frames);
    PublishedIsUnderstoodIff(topics, messages);
    UnderstoodIs(Arrived(frames, |all|));
    hide SentStream, ParseStream, Understood, PublishFrames, Arrivals, Arrived, AllSendable, ShortTopics;
  }

  // ---- SUBSCRIBE and UNSUBSCRIBE ----------------------------------------------------------------

  /** One filter, with QoS 0. */
  function SubscribeBody(id: nat, filter: seq<byte>): seq<byte>
    requires id < 0x10000
  {
    WriteUint16(id) + WriteString(filter) + [0]
  }

  function UnsubscribeBody(id: nat, filter: seq<byte>): seq<byte>
    requires id < 0x10000
  {
    WriteUint16(id) + WriteString(filter)
  }

  datatype Request = Request(id: nat, filter: seq<byte>, options: seq<byte>) | NotRequest

  /** Sections 3.8 and 3.10: a packet id, then one filter, then its options. */
  function ParseRequest(body: seq<byte>): Request {
    if |body| < 2 then NotRequest
    else
      match CutString(body[2..])
      case NoPiece => NotRequest
      case Piece(filter, options) => Request(Number(body[0], body[1]), filter, options)
  }

  /** A string is cut off whole exactly when it is short enough; otherwise a shorter one is. */
  lemma CutWritten(text: seq<byte>, rest: seq<byte>)
    ensures |text| <= 0xFFFF ==> CutString(WriteString(text) + rest) == Piece(text, rest)
    ensures |text| > 0xFFFF ==>
              var cut := CutString(WriteString(text) + rest);
              cut.Piece? && |cut.text| < |text|
  {
    var s := WriteString(text) + rest;
    assert Number(s[0], s[1]) == |text| % 0x10000;
    if |text| <= 0xFFFF {
      assert s[2..2 + |text|] == text;
      assert s[2 + |text|..] == rest;
    }
  }

  /** A server reads the id, the filter and QoS 0 from a SUBSCRIBE, and the id and the filter from an UNSUBSCRIBE,
      exactly when the filter is at most 65535 bytes. */
  lemma RequestRoundTripIff(id: nat, filter: seq<byte>)
    requires id < 0x10000
    ensures ParseRequest(SubscribeBody(id, filter)) == Request(id, filter, [0]) <==> |filter| <= 0xFFFF
    ensures ParseRequest(UnsubscribeBody(id, filter)) == Request(id, filter, []) <==> |filter| <= 0xFFFF
  {
    CutWritten(filter, [0]);
    CutWritten(filter, []);
    Regroup(WriteUint16(id), WriteString(filter), [0]);
    hide CutString, WriteString;
    assert SubscribeBody(id, filter)[2..] == WriteString(filter) + [0];
    assert UnsubscribeBody(id, filter)[2..] == WriteString(filter) + [];
  }

  // ---- CONNECT -----------------------------------------------------------------------------

  const MQTT: seq<byte> := [77, 81, 84, 84]

  datatype Will = NoWill | Will(topic: seq<byte>, message: seq<byte>, retain: bool)

  /** The flag byte as the source builds it, bit by bit. */
  function ConnectFlags(willTopic: seq<byte>, retain: bool): nat {
    var clean := Or(0, Shl(1, 1));
    if willTopic == [] then clean
    else
      var will := Or(Or(clean, Shl(1, 2)), Shl(0, 3));
      if retain then Or(will, Shl(1, 5)) else will
  }

  lemma ConnectFlagsValue(willTopic: seq<byte>, retain: bool)
    ensures ConnectFlags(willTopic, retain) == if willTopic == [] then 2 else if retain then 38 else 6
  {
    hide Or;
    assert Shl(1, 1) == 2 && Shl(1, 2) == 4 && Shl(0, 3) == 0 && Shl(1, 5) == 32;
    assert Pow2(1) == 2 && Pow2(2) == 4 && Pow2(3) == 8 && Pow2(5) == 32;
    hide Shl, Pow2;
    OrDisjoint(0, 1, 1);
    OrDisjoint(2, 1, 2);
    OrDisjoint(6, 0, 3);
    OrDisjoint(6, 1, 5);
  }

  /** The variable header: protocol name and level, flags, keep-alive. */
  function ConnectHeader(flags: byte): seq<byte> {
    WriteString(MQTT) + [4] + [flags] + WriteUint16(30)
  }

  function ConnectBody(clientId: seq<byte>, willTopic: seq<byte>, willMessage: seq<byte>, retain: bool): seq<byte> {
    ConnectFlagsValue(willTopic, retain);
    ConnectHeader(ConnectFlags(willTopic, retain)) + WriteString(clientId)
    + if willTopic == [] then [] else WriteString(willTopic) + WriteString(willMessage)
  }

  datatype Connect = Connect(cleanSession: bool, keepAlive: nat, clientId: seq<byte>, will: Will) | NotConnect

  /** The will flag is bit 2; the will QoS bits 3 and 4 and the retain bit 5 are zero without it. */
  function ParseWill(flags: byte, keepAlive: nat, clientId: seq<byte>, s: seq<byte>): Connect {
    var clean := flags / 2 % 2 == 1;
    if flags / 4 % 2 == 0 then
      if flags / 8 != 0 || s != [] then NotConnect else Connect(clean, keepAlive, clientId, NoWill)
    else if flags / 8 % 4 != 0 then NotConnect  // this client sends wills with QoS 0 only
    else
      match CutString(s)
      case NoPiece => NotConnect
      case Piece(topic, s') =>
        match CutString(s')
        case NoPiece => NotConnect
        case Piece(message, end) =>
          if end != [] then NotConnect
          else Connect(clean, keepAlive, clientId, Will(topic, message, flags / 32 % 2 == 1))
  }

  function ParseAfterName(s: seq<byte>): Connect {
    if |s| < 4 || s[0] != 4 || s[1] % 2 != 0 || s[1] >= 64 then NotConnect
    else
      match CutString(s[4..])
      case NoPiece => NotConnect
      case Piece(clientId, tail) => ParseWill(s[1], Number(s[2], s[3]), clientId, tail)
  }

  /** Section 3.1: protocol name and level, flags with the reserved bit clear, keep-alive, then the
      payload the flags announce, with nothing after it. User name and password are not announced. */
  function ParseConnect(body: seq<byte>): Connect {
    match CutString(body)
    case NoPiece => NotConnect
    case Piece(name, s) => if name == MQTT then ParseAfterName(s) else NotConnect
  }

  lemma WillRoundTripIff(clientId: seq<byte>, topic: seq<byte>, message: seq<byte>, retain: bool)
    requires topic != []
    ensures var flags := if retain then 38 else 6;
            ParseWill(flags, 30, clientId, WriteString(topic) + WriteString(message)) ==
            Connect(true, 30, clientId, Will(topic, message, retain))
            <==> |topic| <= 0xFFFF && |message| <= 0xFFFF
  {
    CutWritten(topic, WriteString(message));
    CutWritten(message, []);
    assert WriteString(message) + [] == WriteString(message);
    hide CutString, WriteString;
  }

  lemma AfterName(flags: byte, clientId: seq<byte>, tail: seq<byte>)
    requires flags % 2 == 0 && flags < 64
    ensures var parsed := ParseAfterName([4, flags, 0, 30] + (WriteString(clientId) + tail));
            if |clientId| <= 0xFFFF then parsed == ParseWill(flags, 30, clientId, tail)
            else parsed.Connect? ==> parsed.clientId != clientId
  {
    CutWritten(clientId, tail);
    hide CutString, WriteString;
    assert ([4, flags, 0, 30] + (WriteString(clientId) + tail))[4..] == WriteString(clientId) + tail;
  }

  lemma ConnectHead(flags: byte, clientId: seq<byte>, tail: seq<byte>)
    requires flags % 2 == 0 && flags < 64
    ensures var body := WriteString(MQTT) + ([4, flags, 0, 30] + (WriteString(clientId) + tail));
            if |clientId| <= 0xFFFF then ParseConnect(body) == ParseWill(flags, 30, clientId, tail)
            else ParseConnect(body).Connect? ==> ParseConnect(body).clientId != clientId
  {
    var s := [4, flags, 0, 30] + (WriteString(clientId) + tail);
    CutWritten(MQTT, s);
    AfterName(flags, clientId, tail);
    hide CutString, WriteString, ParseAfterName, ParseWill;
  }

  /** The body of CONNECT in the order a parser meets it. */
  lemma ConnectBodyIs(clientId: seq<byte>, willTopic: seq<byte>, willMessage: seq<byte>, retain: bool)
    ensures var tail := if willTopic == [] then [] else WriteString(willTopic) + WriteString(willMessage);
            var flags: byte := if willTopic == [] then 2 else if retain then 38 else 6;
            ConnectBody(clientId, willTopic, willMessage, retain) ==
            WriteString(MQTT) + ([4, flags, 0, 30] + (WriteString(clientId) + tail))
  {
    ConnectFlagsValue(willTopic, retain);
    hide ConnectFlags;
  }

  /** The CONNECT body says what was configured - a clean session, 30 seconds of keep-alive, the client id,
      and the will exactly when a will topic is set - exactly when the strings it holds are short enough. */
  lemma ConnectRoundTripIff(clientId: seq<byte>, willTopic: seq<byte>, willMessage: seq<byte>, retain: bool)
    ensures ParseConnect(ConnectBody(clientId, willTopic, willMessage, retain)) ==
            Connect(true, 30, clientId, if willTopic == [] then NoWill else Will(willTopic, willMessage, retain))
            <==> |clientId| <= 0xFFFF && (willTopic != [] ==> |willTopic| <= 0xFFFF && |willMessage| <= 0xFFFF)
  {
    ConnectBodyIs(clientId, willTopic, willMessage, retain);
    var flags: byte := if willTopic == [] then 2 else if retain then 38 else 6;
    hide ConnectBody, ParseConnect, CutString, WriteString;
    if willTopic == [] {
      ConnectHead(flags, clientId, []);
    } else {
      ConnectHead(flags, clientId, WriteString(willTopic) + WriteString(willMessage));
      WillRoundTripIff(clientId, willTopic, willMessage, retain);
    }
  }
}
