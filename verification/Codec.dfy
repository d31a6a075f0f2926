/** The bytes of MQTT packets: bits, fields, the remaining-length code of section 2.2.3 of MQTT 3.1.1,
    whole frames and streams of frames. */
module Codec {
  import opened Common

  type byte = x: int | 0 <= x < 256

  // ---- Bits ------------------------------------------------------------------------

  /** Bitwise or of two unsigned numbers. */
  function Or(a: nat, b: nat): nat
    decreases a + b
  {
    if a == 0 && b == 0 then 0
    else 2 * Or(a / 2, b / 2) + if a % 2 == 1 || b % 2 == 1 then 1 else 0
  }

  lemma {:induction false} OrZero(b: nat)
    ensures Or(0, b) == b
  {
    if b > 0 { OrZero(b / 2); }
  }

  lemma {:induction false} OrCommutes(a: nat, b: nat)
    ensures Or(a, b) == Or(b, a)
    decreases a + b
  {
    if a + b > 0 { OrCommutes(a / 2, b / 2); }
  }

  /** Shift left by `k` bits. */
  function Shl(c: nat, k: nat): nat {
    if k == 0 then c else 2 * Shl(c, k - 1)
  }

  /** A value below 2^k and one shifted left by k share no bit: their or is their sum. */
  lemma {:induction false} OrDisjoint(a: nat, c: nat, k: nat)
    requires a < Pow2(k)
    ensures Or(a, Shl(c, k)) == a + Shl(c, k)
    ensures Or(Shl(c, k), a) == a + Shl(c, k)
  {
    if k == 0 {
      OrZero(c);
    } else {
      OrDisjoint(a / 2, c, k - 1);
    }
    OrCommutes(a, Shl(c, k));
  }

  lemma {:induction false} ShlIsTimes(c: nat, k: nat)
    ensures Shl(c, k) == c * Pow2(k)
  {
    if k > 0 { ShlIsTimes(c, k - 1); }
  }

  lemma ShiftsUsed(c: nat)
    ensures Pow2(0) == 1 && Pow2(4) == 16 && Pow2(7) == 128 && Pow2(8) == 256
    ensures Pow2(14) == 16384 && Pow2(21) == 2097152
    ensures Shl(c, 0) == c && Shl(c, 4) == 16 * c && Shl(c, 7) == 128 * c && Shl(c, 8) == 256 * c
    ensures Shl(c, 14) == 16384 * c && Shl(c, 21) == 2097152 * c
  {
    ShlIsTimes(c, 4);
    ShlIsTimes(c, 7);
    ShlIsTimes(c, 8);
    ShlIsTimes(c, 14);
    ShlIsTimes(c, 21);
  }

  // ---- Remaining length ----------------------------------------------------------------

  const MAX_LENGTH := 268435455

  /** Seven bits a byte, least significant first; the high bit says that more follows. */
  function EncodeLength(n: nat): (code: seq<byte>)
    ensures 1 <= |code| <= n + 1
  {
    if n < 128 then [n] else [n % 128 + 128] + EncodeLength(n / 128)
  }

  datatype LengthResult = Length(value: nat, used: nat) | TooLong | Short

  /** The reading of section 2.2.3, with at most `max` bytes. */
  function ParseLength(s: seq<byte>, max: nat): LengthResult {
    if max == 0 then TooLong
    else if s == [] then Short
    else if s[0] < 128 then Length(s[0], 1)
    else
      match ParseLength(s[1..], max - 1)
      case Length(v, u) => Length(s[0] - 128 + 128 * v, u + 1)
      case other => other
  }

  lemma {:induction false} ParseLengthUsed(s: seq<byte>, max: nat)
    requires ParseLength(s, max).Length?
    ensures 1 <= ParseLength(s, max).used <= |s| && ParseLength(s, max).used <= max
  {
    if s[0] >= 128 { ParseLengthUsed(s[1..], max - 1); }
  }

  lemma {:induction false} ParseEncodedLength(n: nat, rest: seq<byte>, max: nat)
    requires |EncodeLength(n)| <= max
    ensures ParseLength(EncodeLength(n) + rest, max) == Length(n, |EncodeLength(n)|)
  {
    if n >= 128 {
      assert (EncodeLength(n) + rest)[1..] == EncodeLength(n / 128) + rest;
      ParseEncodedLength(n / 128, rest, max - 1);
    }
  }

  /** A code cut short is recognised as unfinished. */
  lemma {:induction false} ParseCutLength(n: nat, k: nat, max: nat)
    requires k < |EncodeLength(n)| <= max
    ensures ParseLength(EncodeLength(n)[..k], max) == Short
  {
    if k > 0 {
      assert EncodeLength(n)[..k][1..] == EncodeLength(n / 128)[..k - 1];
      ParseCutLength(n / 128, k - 1, max - 1);
    }
  }

  /** No accepted code for `n` is shorter than the emitted one, and one as short is the emitted one. */
  lemma {:induction false} EncodedLengthIsShortest(s: seq<byte>, max: nat)
    requires ParseLength(s, max).Length?
    ensures var Length(n, used) := ParseLength(s, max);
            && |EncodeLength(n)| <= used <= |s|
            && (used == |EncodeLength(n)| <==> s[..used] == EncodeLength(n))
  {
    ParseLengthUsed(s, max);
    if s[0] >= 128 {
      EncodedLengthIsShortest(s[1..], max - 1);
      var Length(v, u) := ParseLength(s[1..], max - 1);
      var n := s[0] - 128 + 128 * v;
      assert n % 128 == s[0] - 128 && n / 128 == v;
      assert s[..u + 1] == [s[0]] + s[1..][..u];
      assert n >= 128 ==> EncodeLength(n)[1..] == EncodeLength(v);
    } else {
      assert s[..1] == [s[0]];
    }
  }

  lemma {:induction false} ShortStreamNotTooLong(s: seq<byte>, max: nat)
    requires |s| < max
    ensures ParseLength(s, max) != TooLong
  {
    if s != [] { ShortStreamNotTooLong(s[1..], max - 1); }
  }

  /** The decoder rejects for length exactly when four bytes all have the high bit set. */
  lemma TooLongIff(s: seq<byte>)
    ensures ParseLength(s, 4) == TooLong <==>
            |s| >= 4 && s[0] >= 128 && s[1] >= 128 && s[2] >= 128 && s[3] >= 128
  {
    if |s| >= 4 {
      assert s[1..][1..] == s[2..] && s[2..][1..] == s[3..] && s[3..][1..] == s[4..];
      assert ParseLength(s[4..], 0) == TooLong;
      assert ParseLength(s[3..], 1) == TooLong <==> s[3] >= 128;
      assert ParseLength(s[2..], 2) == TooLong <==> s[2] >= 128 && s[3] >= 128;
    } else {
      ShortStreamNotTooLong(s, 4);
    }
  }

  lemma LengthSizes(n: nat)
    ensures |EncodeLength(n)| <= 1 <==> n <= 127
    ensures |EncodeLength(n)| <= 2 <==> n <= 16383
    ensures |EncodeLength(n)| <= 3 <==> n <= 2097151
    ensures |EncodeLength(n)| <= 4 <==> n <= MAX_LENGTH
  {
    var a, b, c := n / 128, n / 128 / 128, n / 128 / 128 / 128;
    assert n >= 128 ==> |EncodeLength(n)| == 1 + |EncodeLength(a)|;
    assert a >= 128 ==> |EncodeLength(a)| == 1 + |EncodeLength(b)|;
    assert b >= 128 ==> |EncodeLength(b)| == 1 + |EncodeLength(c)|;
    assert c >= 128 ==> |EncodeLength(c)| == 1 + |EncodeLength(c / 128)|;
  }

  lemma LengthStepIs(n: nat)
    ensures EncodeLength(n) == if n < 128 then [n] else [n % 128 + 128] + EncodeLength(n / 128)
  {
  }

  /** The examples of section 2.2.3: the number 321, and the ends of the four ranges of its table. */
  lemma StandardLengths()
    ensures EncodeLength(321) == [193, 2]
    ensures EncodeLength(0) == [0] && EncodeLength(127) == [127]
    ensures EncodeLength(128) == [128, 1] && EncodeLength(16383) == [255, 127]
    ensures EncodeLength(16384) == [128, 128, 1] && EncodeLength(2097151) == [255, 255, 127]
    ensures EncodeLength(2097152) == [128, 128, 128, 1] && EncodeLength(268435455) == [255, 255, 255, 127]
  {
    LengthStepIs(16383 / 128);
    LengthStepIs(16384 / 128);
    LengthStepIs(2097151 / 128);
    LengthStepIs(2097152 / 128);
    LengthStepIs(268435455 / 128);
    LengthStepIs(268435455 / 128 / 128);
  }

  // ---- Frames ------------------------------------------------------------------------------

  /** Where `send` starts the header inside the five reserved bytes. */
  function HeaderOffset(n: nat): nat {
    if n <= 127 then 3 else if n <= 16383 then 2 else if n <= 2097151 then 1 else 0
  }

  /** The header ends exactly where the body begins iff the body is at most 268435455 bytes. */
  lemma HeaderFits(n: nat)
    ensures HeaderOffset(n) + 1 + |EncodeLength(n)| == 5 <==> n <= MAX_LENGTH
    ensures HeaderOffset(n) + 1 + |EncodeLength(n)| >= 5
  {
    LengthSizes(n);
  }

  datatype Frame = Frame(kind: nat, flags: nat, body: seq<byte>)

  /** What the types of the source guarantee: a packet type and four flag bits. */
  predicate Typed(f: Frame) {
    1 <= f.kind <= 14 && f.flags < 16
  }

  predicate Sendable(f: Frame) {
    Typed(f) && |f.body| <= MAX_LENGTH
  }

  function Header(f: Frame): (h: seq<byte>)
    requires Typed(f)
  {
    [f.kind * 16 + f.flags] + EncodeLength(|f.body|)
  }

  /** The bytes `send` leaves in the buffer from the write offset on: the header laid over the reserved
      bytes and, when it is too long for them, over the first bytes of the body. */
  function SentBytes(f: Frame): seq<byte>
    requires Typed(f)
  {
    HeaderFits(|f.body|);
    var over := HeaderOffset(|f.body|) + |Header(f)| - 5;
    Header(f) + f.body[over..]
  }

  datatype Parsed = Got(frame: Frame, rest: seq<byte>) | Rejected | Starved

  function ParseFrame(s: seq<byte>): Parsed {
    if s == [] then Starved
    else if s[0] / 16 < 1 || s[0] / 16 > 14 then Rejected
    else
      match ParseLength(s[1..], 4)
      case Short => Starved
      case TooLong => Rejected
      case Length(n, u) =>
        ParseLengthUsed(s[1..], 4);
        if |s| < 1 + u + n then Starved
        else Got(Frame(s[0] / 16, s[0] % 16, s[1 + u..1 + u + n]), s[1 + u + n..])
  }

  /** The receiver rejects exactly an unknown packet type or a length of four bytes with the high bit set. */
  lemma RejectedIff(s: seq<byte>)
    ensures ParseFrame(s) == Rejected <==>
            && s != []
            && (s[0] < 16 || s[0] >= 240 || (|s| >= 5 && s[1] >= 128 && s[2] >= 128 && s[3] >= 128 && s[4] >= 128))
  {
    if s != [] { TooLongIff(s[1..]); }
  }

  /** A frame got is what the bytes say: type and flags in the first one, a length, that many bytes, the rest. */
  lemma GotIs(s: seq<byte>)
    requires ParseFrame(s).Got?
    ensures var Got(f, rest) := ParseFrame(s);
            && Typed(f) && s[0] == 16 * f.kind + f.flags
            && var length := ParseLength(s[1..], 4);
               && length == Length(|f.body|, length.used) && 1 + length.used <= |s|
               && s == s[..1 + length.used] + f.body + rest
  {
    ParseLengthUsed(s[1..], 4);
  }

  lemma SentBytesFit(f: Frame)
    requires Sendable(f)
    ensures SentBytes(f) == Header(f) + f.body
  {
    HeaderFits(|f.body|);
    assert f.body[0..] == f.body;
  }

  lemma AfterFirst(first: byte, code: seq<byte>, body: seq<byte>, rest: seq<byte>)
    ensures ([first] + code + body + rest)[1..] == code + (body + rest)
  {
  }

  lemma Middle(a: seq<byte>, b: seq<byte>, c: seq<byte>)
    ensures (a + b + c)[|a|..] == b + c
    ensures (a + b + c)[|a|..|a| + |b|] == b
    ensures (a + b + c)[|a| + |b|..] == c
  {
  }

  lemma GotFrame(first: byte, code: seq<byte>, body: seq<byte>, rest: seq<byte>)
    requires 1 <= first / 16 <= 14
    requires ParseLength(([first] + code + body + rest)[1..], 4) == Length(|body|, |code|)
    ensures ParseFrame([first] + code + body + rest) == Got(Frame(first / 16, first % 16, body), rest)
  {
    Middle([first] + code, body, rest);
  }

  lemma WholeFrame(first: byte, body: seq<byte>, rest: seq<byte>)
    requires 1 <= first / 16 <= 14 && |body| <= MAX_LENGTH
    ensures ParseFrame([first] + EncodeLength(|body|) + body + rest) ==
            Got(Frame(first / 16, first % 16, body), rest)
  {
    var code := EncodeLength(|body|);
    LengthSizes(|body|);
    ParseEncodedLength(|body|, body + rest, 4);
    AfterFirst(first, code, body, rest);
    GotFrame(first, code, body, rest);
  }

  /** One frame sent is the same frame received, with the rest of the stream untouched. */
  lemma FrameRoundTrip(f: Frame, rest: seq<byte>)
    requires Sendable(f)
    ensures ParseFrame(SentBytes(f) + rest) == Got(f, rest)
  {
    SentBytesFit(f);
    WholeFrame(f.kind * 16 + f.flags, f.body, rest);
  }

  lemma HighBit(n: nat)
    ensures n >= 128 ==> EncodeLength(n) == [n % 128 + 128] + EncodeLength(n / 128)
  {
  }

  lemma HighBits(n: nat)
    requires n > MAX_LENGTH
    ensures |EncodeLength(n)| > 4 && forall i :: 0 <= i < 4 ==> EncodeLength(n)[i] >= 128
  {
    var a := n / 128;
    var b := a / 128;
    var c := b / 128;
    HighBit(n);
    HighBit(a);
    HighBit(b);
    HighBit(c);
    hide EncodeLength;
  }

  /** A longer body overwrites its own beginning, and the receiver refuses the frame. */
  lemma OversizedIsRejected(f: Frame, rest: seq<byte>)
    requires Typed(f) && |f.body| > MAX_LENGTH
    ensures ParseFrame(SentBytes(f) + rest) == Rejected
  {
    HighBits(|f.body|);
    var code, s := EncodeLength(|f.body|), SentBytes(f) + rest;
    assert forall i :: 0 <= i < 4 ==> s[1..][i] == code[i];
    TooLongIff(s[1..]);
  }

  /** The round trip of one frame holds exactly for bodies of at most 268435455 bytes. */
  lemma FrameRoundTripIff(f: Frame, rest: seq<byte>)
    requires Typed(f)
    ensures ParseFrame(SentBytes(f) + rest) == Got(f, rest) <==> |f.body| <= MAX_LENGTH
  {
    if |f.body| <= MAX_LENGTH { FrameRoundTrip(f, rest); } else { OversizedIsRejected(f, rest); }
  }

  lemma CutStarves(first: byte, body: seq<byte>, k: nat)
    requires 1 <= first / 16 <= 14 && |body| <= MAX_LENGTH
    requires k < 1 + |EncodeLength(|body|)| + |body|
    ensures ParseFrame(([first] + EncodeLength(|body|) + body)[..k]) == Starved
  {
    var code := EncodeLength(|body|);
    var s := ([first] + code + body)[..k];
    LengthSizes(|body|);
    assert [first] + code + body == [first] + (code + body);
    assert k > 0 ==> s[1..] == (code + body)[..k - 1];
    if 0 < k <= |code| {
      ParseCutLength(|body|, k - 1, 4);
      assert s[1..] == code[..k - 1];
    } else if k > 0 {
      var got := body[..k - 1 - |code|];
      ParseEncodedLength(|body|, got, 4);
      assert s[1..] == code + got;
    }
  }

  /** A frame cut short is never mistaken for another frame. */
  lemma FrameCutStarves(f: Frame, k: nat)
    requires Sendable(f) && k < |SentBytes(f)|
    ensures ParseFrame(SentBytes(f)[..k]) == Starved
  {
    SentBytesFit(f);
    CutStarves(f.kind * 16 + f.flags, f.body, k);
  }

  lemma {:induction false} HighBitsStarve(s: seq<byte>, max: nat)
    requires |s| < max && forall i :: 0 <= i < |s| ==> s[i] >= 128
    ensures ParseLength(s, max) == Short
  {
    if s != [] { HighBitsStarve(s[1..], max - 1); }
  }

  /** Nor is a beginning of an oversized frame ever taken for a frame. */
  lemma OversizedCut(f: Frame, k: nat)
    requires Typed(f) && |f.body| > MAX_LENGTH && k <= |SentBytes(f)|
    ensures !ParseFrame(SentBytes(f)[..k]).Got?
  {
    HighBits(|f.body|);
    var code, s := EncodeLength(|f.body|), SentBytes(f)[..k];
    if k > 4 {
      assert forall i :: 0 <= i < 4 ==> s[1..][i] == code[i];
      TooLongIff(s[1..]);
    } else if k > 0 {
      assert forall i :: 0 <= i < k - 1 ==> s[1..][i] == code[i];
      HighBitsStarve(s[1..], 4);
    }
  }

  // ---- Streams --------------------------------------------------------------------------------

  predicate AllTyped(fs: seq<Frame>) {
    fs != [] ==> Typed(fs[0]) && AllTyped(fs[1..])
  }

  predicate AllSendable(fs: seq<Frame>) {
    fs != [] ==> Sendable(fs[0]) && AllSendable(fs[1..])
  }

  function SentStream(fs: seq<Frame>): seq<byte>
    requires AllTyped(fs)
  {
    if fs == [] then [] else SentBytes(fs[0]) + SentStream(fs[1..])
  }

  /** Writing one packet after another writes the stream of them all. */
  lemma {:induction false} SentStreamAppend(fs: seq<Frame>, f: Frame)
    requires AllTyped(fs) && Typed(f)
    ensures AllTyped(fs + [f]) && SentStream(fs + [f]) == SentStream(fs) + SentBytes(f)
  {
    if fs == [] {
      assert (fs + [f])[1..] == [];
    } else {
      assert (fs + [f])[1..] == fs[1..] + [f];
      SentStreamAppend(fs[1..], f);
    }
  }

  lemma {:induction false} TypedAt(fs: seq<Frame>, k: nat)
    requires AllTyped(fs) && k < |fs|
    ensures Typed(fs[k])
  {
    if k > 0 { TypedAt(fs[1..], k - 1); }
  }

  lemma {:induction false} SentStreamPrefix(fs: seq<Frame>, k: nat)
    requires AllTyped(fs) && k <= |fs|
    ensures AllTyped(fs[..k]) && SentStream(fs[..k]) <= SentStream(fs)
  {
    if k > 0 {
      assert fs[..k][1..] == fs[1..][..k - 1];
      SentStreamPrefix(fs[1..], k - 1);
    }
  }

  lemma ParseFrameShrinks(s: seq<byte>)
    requires ParseFrame(s).Got?
    ensures |ParseFrame(s).rest| < |s|
  {
  }

  /** The frames read until the stream is starved or a frame is rejected. */
  function ParseStream(s: seq<byte>): seq<Frame>
    decreases |s|
  {
    match ParseFrame(s)
    case Got(f, rest) =>
      ParseFrameShrinks(s);
      [f] + ParseStream(rest)
    case _ => []
  }

  lemma ParseNothing()
    ensures ParseStream([]) == []
  {
  }

  /** The packets before the first oversized one of which the first `k` bytes of the stream hold every byte. */
  function Arrived(fs: seq<Frame>, k: nat): (arrived: seq<Frame>)
    requires AllTyped(fs)
    ensures arrived <= fs
  {
    if fs == [] || !Sendable(fs[0]) || k < |SentBytes(fs[0])| then []
    else [fs[0]] + Arrived(fs[1..], k - |SentBytes(fs[0])|)
  }

  /** A stream of packets cut after any byte is read as the packets that arrived whole before the first
      oversized one. */
  lemma {:induction false} StreamRoundTrip(fs: seq<Frame>, k: nat)
    requires AllTyped(fs) && k <= |SentStream(fs)|
    ensures ParseStream(SentStream(fs)[..k]) == Arrived(fs, k)
  {
    ParseNothing();
    hide ParseFrame, SentBytes;
    if fs != [] {
      var one, all := SentBytes(fs[0]), SentStream(fs);
      if k < |one| {
        assert all[..k] == one[..k];
        if Sendable(fs[0]) { FrameCutStarves(fs[0], k); } else { OversizedCut(fs[0], k); }
      } else {
        var tail := SentStream(fs[1..])[..k - |one|];
        assert all[..k] == one + tail;
        if Sendable(fs[0]) {
          FrameRoundTrip(fs[0], tail);
          StreamRoundTrip(fs[1..], k - |one|);
        } else {
          OversizedIsRejected(fs[0], tail);
        }
      }
    }
  }

  lemma {:induction false} ArrivedWhole(fs: seq<Frame>)
    requires AllTyped(fs)
    ensures Arrived(fs, |SentStream(fs)|) == fs <==> AllSendable(fs)
  {
    hide Sendable, SentBytes;
    if fs != [] {
      ArrivedWhole(fs[1..]);
      assert fs == [fs[0]] + fs[1..];
    }
  }

  /** A whole stream is read back as the packets sent exactly when none of them is oversized. */
  lemma WholeStreamIff(fs: seq<Frame>)
    requires AllTyped(fs)
    ensures ParseStream(SentStream(fs)) == fs <==> AllSendable(fs)
  {
    var all := SentStream(fs);
    assert all[..|all|] == all;
    StreamRoundTrip(fs, |all|);
    ArrivedWhole(fs);
  }
}
