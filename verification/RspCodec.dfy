/**
  Packet framing of the GDB remote serial protocol, as this client reads and writes it: the
  "Overview" section of the "GDB Remote Serial Protocol" appendix of the GDB manual.
*/
module RspCodec {

  import opened Base

  const DOLLAR: Byte := 36
  const HASH: Byte := 35
  const ESCAPE: Byte := 125
  const PLUS: Byte := 43
  const MINUS: Byte := 45

  const MAX_PAYLOAD := 8 * 1024 * 1024
  const MAX_PREFIX := 64 * 1024

  function Checksum(s: seq<Byte>): Byte {
    if s == [] then 0 else (Checksum(s[..|s| - 1]) + s[|s| - 1]) % 256
  }

  function HexDigit(n: nat): Byte
    requires n < 16
  {
    if n < 10 then 48 + n else 87 + n
  }

  function HexValue(b: Byte): Option<nat> {
    if 48 <= b <= 57 then Some(b - 48)
    else if 97 <= b <= 102 then Some(b - 87)
    else if 65 <= b <= 70 then Some(b - 55)
    else None
  }

  /** Two characters read as a hexadecimal u8; like the library routine it also takes "+d". */
  function ParseHex(high: Byte, low: Byte): Option<nat> {
    if HexValue(low).None? then None
    else if high == PLUS then HexValue(low)
    else if HexValue(high).None? then None
    else Some(16 * HexValue(high).value + HexValue(low).value)
  }

  function Frame(payload: seq<Byte>): seq<Byte> {
    [DOLLAR] + payload + [HASH, HexDigit(Checksum(payload) / 16), HexDigit(Checksum(payload) % 16)]
  }

  function Flip(b: Byte): Byte {
    if (b / 32) % 2 == 1 then b - 32 else b + 32
  }

  function Unescape(raw: seq<Byte>): seq<Byte>
    decreases |raw|
  {
    if raw == [] then []
    else if raw[0] == ESCAPE && |raw| > 1 then [Flip(raw[1])] + Unescape(raw[2..])
    else [raw[0]] + Unescape(raw[1..])
  }

  /** The first index at or after `from` that holds `b`, or the length. */
  function IndexOf(s: seq<Byte>, b: Byte, from: nat): (i: nat)
    requires from <= |s|
    ensures from <= i <= |s|
    ensures i < |s| ==> s[i] == b
    decreases |s| - from
  {
    if from == |s| || s[from] == b then from else IndexOf(s, b, from + 1)
  }

  lemma NotBefore(s: seq<Byte>, b: Byte, from: nat)
    requires from <= |s|
    ensures forall j :: from <= j < IndexOf(s, b, from) ==> s[j] != b
    decreases |s| - from
  {
    if from < |s| && s[from] != b {
      NotBefore(s, b, from + 1);
    }
  }

  lemma IndexIs(s: seq<Byte>, b: Byte, from: nat, i: nat)
    requires from <= i <= |s| && (i < |s| ==> s[i] == b)
    requires forall j :: from <= j < i ==> s[j] != b
    ensures IndexOf(s, b, from) == i
  {
    NotBefore(s, b, from);
  }

  /** What the blocking reader makes of the bytes that are still to come. */
  datatype Decoded = Packet(payload: seq<Byte>, length: nat) | Incomplete | LongPrefix | LongPayload | BadChecksum

  /** The bytes behind the header. */
  function Body(s: seq<Byte>): seq<Byte> {
    var start := IndexOf(s, DOLLAR, 0);
    if start == |s| then [] else s[start + 1..]
  }

  /** A header and a body the reader gets through: short enough, with end mark and checksum there. */
  predicate Readable(s: seq<Byte>) {
    && IndexOf(s, DOLLAR, 0) <= MAX_PREFIX && Complete(s)
    && IndexOf(Body(s), HASH, 0) <= MAX_PAYLOAD
  }

  /** The header, the body and both checksum bytes of a packet are all there. */
  predicate Complete(s: seq<Byte>) {
    IndexOf(s, DOLLAR, 0) < |s| && IndexOf(Body(s), HASH, 0) + 3 <= |Body(s)|
  }

  function Decode(s: seq<Byte>): Decoded {
    var start, body := IndexOf(s, DOLLAR, 0), Body(s);
    var end := IndexOf(body, HASH, 0);
    if start > MAX_PREFIX then LongPrefix
    else if start == |s| then Incomplete
    else if end > MAX_PAYLOAD then LongPayload
    else if end + 3 > |body| then Incomplete
    else if ParseHex(body[end + 1], body[end + 2]) != Some(Checksum(body[..end])) then BadChecksum
    else Packet(Unescape(body[..end]), start + end + 4)
  }

  // ------------------------------------------------------- what checksum and escape are

  /** The checksum is the sum of the bytes modulo 256: these two laws fix it. */
  lemma ChecksumOfOne(b: Byte)
    ensures Checksum([b]) == b && Checksum([]) == 0
  {
    assert [b][..0] == [];
  }

  lemma {:induction false} ChecksumOfBoth(a: seq<Byte>, b: seq<Byte>)
    ensures Checksum(a + b) == (Checksum(a) + Checksum(b)) % 256
    decreases |b|
  {
    hide Checksum;
    if b == [] {
      assert a + b == a;
      ChecksumOfOne(0);
    } else {
      var front, last := b[..|b| - 1], b[|b| - 1];
      assert a + b == a + front + [last] && b == front + [last];
      ChecksumOfBoth(a, front);
      ChecksumSnoc(a + front, last);
      ChecksumSnoc(front, last);
      ModSum(Checksum(a), Checksum(front), last);
    }
  }

  lemma ChecksumSnoc(s: seq<Byte>, b: Byte)
    ensures Checksum(s + [b]) == (Checksum(s) + b) % 256
  {
    assert (s + [b])[..|s|] == s;
  }

  lemma ModSum(a: nat, b: nat, c: nat)
    ensures ((a + b) % 256 + c) % 256 == (a + (b + c) % 256) % 256
  {
  }

  /** A frame goes out as the header, the payload, the end mark and two lower-case digits. */
  lemma FrameIs(payload: seq<Byte>)
    ensures var n, digits := |payload|, "0123456789abcdef";
      var frame := Frame(payload);
      && |frame| == n + 4 && frame[0] == '$' as int && frame[1..n + 1] == payload && frame[n + 1] == '#' as int
      && frame[n + 2] == digits[Checksum(payload) / 16] as int
      && frame[n + 3] == digits[Checksum(payload) % 16] as int
  {
  }

  /** The marks of the protocol, and the bounds on a packet. */
  lemma MarksAre()
    ensures DOLLAR == '$' as int && HASH == '#' as int && ESCAPE == '}' as int
    ensures PLUS == '+' as int && MINUS == '-' as int
    ensures MAX_PAYLOAD == 0x80_0000 && MAX_PREFIX == 0x1_0000
  {
  }

  /** A hexadecimal digit, in either case. */
  lemma HexValueIs(b: Byte, n: nat)
    ensures HexValue(b) == Some(n) <==>
      n < 16 && (b == "0123456789abcdef"[n] as int || b == "0123456789ABCDEF"[n] as int)
  {
  }

  /** Two digits are read as one number, and a sign before one digit is accepted; nothing else is. */
  lemma HexIs(high: Byte, low: Byte, h: nat, l: nat)
    requires h < 16 && l < 16 && HexValue(low) == Some(l)
    ensures HexValue(high) == Some(h) ==> ParseHex(high, low) == Some(16 * h + l)
    ensures high == '+' as int ==> ParseHex(high, low) == Some(l)
    ensures ParseHex(high, low).Some? <==> high == '+' as int || HexValue(high).Some?
    ensures forall other :: HexValue(other).None? ==> ParseHex(high, other).None?
  {
    hide HexValue;
    HexValueIs(PLUS, 0);
    PlusIsNoDigit(h);
  }

  lemma PlusIsNoDigit(h: nat)
    ensures HexValue(PLUS) != Some(h)
  {
  }

  /** The byte an escape stands for differs in the bit of value 32 and in no other. */
  lemma FlipIsOneBit(b: Byte)
    ensures Flip(b) / 64 == b / 64 && Flip(b) % 32 == b % 32 && (Flip(b) / 32) % 2 == 1 - (b / 32) % 2
    ensures Flip(Flip(b)) == b
  {
  }

  /** Behind plain bytes, an escape and the flipped byte stand for one byte. */
  lemma {:induction false} UnescapeOne(plain: seq<Byte>, b: Byte, rest: seq<Byte>)
    requires 0x7D !in plain
    ensures Unescape(plain + [0x7D, Flip(b)] + rest) == plain + [b] + Unescape(rest)
  {
    var s := plain + [ESCAPE, Flip(b)] + rest;
    if plain == [] {
      FlipIsOneBit(b);
      assert s[2..] == rest;
    } else {
      assert s[1..] == plain[1..] + [ESCAPE, Flip(b)] + rest;
      UnescapeOne(plain[1..], b, rest);
    }
  }

  // ------------------------------------------------------------------- decoding facts

  lemma IndexOfPrefix(s: seq<Byte>, t: seq<Byte>, b: Byte, from: nat)
    requires from <= |s|
    ensures IndexOf(s, b, from) < |s| ==> IndexOf(s + t, b, from) == IndexOf(s, b, from)
    ensures IndexOf(s, b, from) == |s| ==> IndexOf(s + t, b, from) >= |s|
  {
    var i, k := IndexOf(s, b, from), IndexOf(s + t, b, from);
    NotBefore(s, b, from);
    NotBefore(s + t, b, from);
    assert i < |s| ==> (s + t)[i] == s[i];
    assert k < |s| ==> (s + t)[k] == s[k];
  }

  lemma BodyOfPrefix(s: seq<Byte>, t: seq<Byte>)
    requires IndexOf(s, DOLLAR, 0) < |s|
    ensures IndexOf(s + t, DOLLAR, 0) == IndexOf(s, DOLLAR, 0) == |s| - |Body(s)| - 1
    ensures Body(s + t) == Body(s) + t
  {
    IndexOfPrefix(s, t, DOLLAR, 0);
    var start := IndexOf(s, DOLLAR, 0);
    assert (s + t)[start + 1..] == s[start + 1..] + t;
  }

  /** A complete packet lies in what is already there as a whole. */
  lemma CompletePrefix(s: seq<Byte>, t: seq<Byte>)
    requires Complete(s)
    ensures IndexOf(s + t, DOLLAR, 0) == IndexOf(s, DOLLAR, 0)
    ensures Body(s + t) == Body(s) + t
    ensures IndexOf(Body(s + t), HASH, 0) == IndexOf(Body(s), HASH, 0)
    ensures Complete(s + t)
  {
    BodyOfPrefix(s, t);
    IndexOfPrefix(Body(s), t, HASH, 0);
  }

  /** Once a packet is complete, further bytes change neither it nor its length. */
  lemma DecodeOfPrefix(s: seq<Byte>, t: seq<Byte>)
    requires Complete(s)
    ensures Decode(s + t) == Decode(s) && Decode(s) != Incomplete
  {
    CompletePrefix(s, t);
    var end := IndexOf(Body(s), HASH, 0);
    assert (Body(s) + t)[..end] == Body(s)[..end];
  }

  lemma FirstIn(a: seq<Byte>, b: Byte, rest: seq<Byte>)
    requires b !in a
    ensures IndexOf(a + [b] + rest, b, 0) == |a|
    ensures (a + [b] + rest)[..|a|] == a && (a + [b] + rest)[|a| + 1..] == rest
  {
    var s := a + [b] + rest;
    forall j | 0 <= j < |a| ensures s[j] != b {
      assert s[j] == a[j];
    }
    IndexIs(s, b, 0, |a|);
  }

  /** A stream put together from its pieces. */
  function Wire(noise: seq<Byte>, raw: seq<Byte>, tail: seq<Byte>): seq<Byte> {
    noise + [DOLLAR] + (raw + [HASH] + tail)
  }

  lemma WireParts(noise: seq<Byte>, raw: seq<Byte>, tail: seq<Byte>)
    requires DOLLAR !in noise && HASH !in raw && |tail| >= 2
    ensures IndexOf(Wire(noise, raw, tail), DOLLAR, 0) == |noise| < |Wire(noise, raw, tail)|
    ensures Body(Wire(noise, raw, tail)) == raw + [HASH] + tail
    ensures IndexOf(Body(Wire(noise, raw, tail)), HASH, 0) == |raw|
  {
    FirstIn(noise, DOLLAR, raw + [HASH] + tail);
    FirstIn(raw, HASH, tail);
  }

  lemma DecodeBy(s: seq<Byte>, raw: seq<Byte>, tail: seq<Byte>)
    requires IndexOf(s, DOLLAR, 0) < |s| && IndexOf(s, DOLLAR, 0) <= MAX_PREFIX && |raw| <= MAX_PAYLOAD && |tail| >= 2
    requires Body(s) == raw + [HASH] + tail && IndexOf(Body(s), HASH, 0) == |raw|
    ensures Decode(s) == if ParseHex(tail[0], tail[1]) == Some(Checksum(raw))
      then Packet(Unescape(raw), IndexOf(s, DOLLAR, 0) + |raw| + 4) else BadChecksum
  {
    assert Body(s)[..|raw|] == raw;
  }

  /** The decoder's result in terms of the pieces the stream is made of. */
  lemma DecodePieces(noise: seq<Byte>, raw: seq<Byte>, tail: seq<Byte>)
    requires DOLLAR !in noise && HASH !in raw && |noise| <= MAX_PREFIX && |raw| <= MAX_PAYLOAD && |tail| >= 2
    ensures Decode(Wire(noise, raw, tail)) ==
      if ParseHex(tail[0], tail[1]) == Some(Checksum(raw)) then Packet(Unescape(raw), |noise| + |raw| + 4)
      else BadChecksum
  {
    WireParts(noise, raw, tail);
    DecodeBy(Wire(noise, raw, tail), raw, tail);
  }

  // ----------------------------------------------------------------------- round trip

  /** A payload the wire format carries as it is. */
  predicate Plain(payload: seq<Byte>) {
    && HASH !in payload
    && forall i :: 0 <= i < |payload| - 1 ==> payload[i] != ESCAPE
  }

  lemma {:induction false} UnescapeLength(raw: seq<Byte>)
    ensures |Unescape(raw)| <= |raw|
    ensures |Unescape(raw)| == |raw| <==> forall i :: 0 <= i < |raw| - 1 ==> raw[i] != ESCAPE
    ensures |Unescape(raw)| == |raw| ==> Unescape(raw) == raw
    decreases |raw|
  {
    if raw != [] {
      if raw[0] == ESCAPE && |raw| > 1 {
        UnescapeLength(raw[2..]);
      } else {
        UnescapeLength(raw[1..]);
        assert forall i :: 0 <= i < |raw| - 2 ==> raw[1..][i] == raw[i + 1];
        assert raw == [raw[0]] + raw[1..];
        if forall i :: 0 <= i < |raw| - 2 ==> raw[1..][i] != ESCAPE {
          forall i | 0 <= i < |raw| - 1 ensures raw[i] != ESCAPE {
            if i > 0 {
              assert raw[1..][i - 1] == raw[i];
            }
          }
        }
      }
    }
  }

  lemma HexRoundTrip(n: nat)
    requires n < 256
    ensures ParseHex(HexDigit(n / 16), HexDigit(n % 16)) == Some(n)
  {
  }

  /**
    A frame behind any short noise decodes to its own payload, and ends where the frame ends,
    exactly for the payloads that need no escaping.
  */
  lemma FrameDecodesIffPlain(noise: seq<Byte>, payload: seq<Byte>, rest: seq<Byte>)
    requires DOLLAR !in noise && |noise| <= MAX_PREFIX && |payload| <= MAX_PAYLOAD
    ensures Decode(noise + Frame(payload) + rest) == Packet(payload, |noise| + |payload| + 4) <==> Plain(payload)
  {
    var tail := [HexDigit(Checksum(payload) / 16), HexDigit(Checksum(payload) % 16)] + rest;
    var s := noise + Frame(payload) + rest;
    assert s == Wire(noise, payload, tail);
    if HASH !in payload {
      DecodePieces(noise, payload, tail);
      HexRoundTrip(Checksum(payload));
      UnescapeLength(payload);
    } else {
      FirstIn(noise, DOLLAR, payload + [HASH] + tail);
      EarlyEnd(payload, [HASH] + tail);
      assert payload + ([HASH] + tail) == payload + [HASH] + tail;
    }
  }

  lemma DecodeFrame(payload: seq<Byte>, rest: seq<Byte>)
    requires Plain(payload) && |payload| <= MAX_PAYLOAD
    ensures Decode(Frame(payload) + rest) == Packet(payload, |payload| + 4)
  {
    FrameDecodesIffPlain([], payload, rest);
    EmptyNoise(Frame(payload), rest);
  }

  lemma EmptyNoise(frame: seq<Byte>, rest: seq<Byte>)
    ensures [] + frame + rest == frame + rest
  {
  }

  lemma EarlyEnd(payload: seq<Byte>, rest: seq<Byte>)
    requires HASH in payload
    ensures IndexOf(payload + rest, HASH, 0) < |payload|
  {
    var k :| 0 <= k < |payload| && payload[k] == HASH;
    NotBefore(payload + rest, HASH, 0);
    assert (payload + rest)[k] == HASH;
  }

  // ------------------------------------------------------------------- packet streams

  lemma PacketReadable(s: seq<Byte>)
    requires Decode(s).Packet?
    ensures Readable(s) && 0 < Decode(s).length <= |s|
  {
  }

  /** The packets a blocking reader takes from a stream, one after the other. */
  function Packets(s: seq<Byte>): seq<seq<Byte>>
    decreases |s|
  {
    match Decode(s)
    case Packet(payload, length) => PacketReadable(s); [payload] + Packets(s[length..])
    case _ => []
  }

  /** The next packet with the noise before it, or what is left of the stream, fits the client's buffer. */
  predicate Orderly(s: seq<Byte>) {
    match Decode(s)
    case Packet(_, length) => length <= MAX_PAYLOAD + 5
    case Incomplete => |s| <= MAX_PAYLOAD + 4
    case _ => false
  }

  predicate Clean(s: seq<Byte>)
    decreases |s|
  {
    && Orderly(s)
    && match Decode(s)
       case Packet(_, length) => PacketReadable(s); Clean(s[length..])
       case _ => true
  }

  /** What a poll accepts while it waits for the rest of a packet. */
  predicate PendingFits(buf: seq<Byte>) {
    IndexOf(buf, DOLLAR, 0) <= MAX_PREFIX && |buf| <= MAX_PAYLOAD + 4
  }

  /** A pending part is shorter than the first packet, header index and all. */
  lemma PendingLength(buf: seq<Byte>, rest: seq<Byte>)
    requires !Complete(buf)
    ensures IndexOf(buf, DOLLAR, 0) <= IndexOf(buf + rest, DOLLAR, 0)
    ensures IndexOf(buf + rest, DOLLAR, 0) < |buf + rest| ==>
      |buf| < IndexOf(buf + rest, DOLLAR, 0) + IndexOf(Body(buf + rest), HASH, 0) + 4
  {
    if IndexOf(buf, DOLLAR, 0) < |buf| {
      BodyOfPrefix(buf, rest);
      PendingBody(Body(buf), rest);
    } else {
      IndexOfPrefix(buf, rest, DOLLAR, 0);
    }
  }

  lemma PendingBody(body: seq<Byte>, rest: seq<Byte>)
    requires IndexOf(body, HASH, 0) + 3 > |body|
    ensures IndexOf(body + rest, HASH, 0) + 3 > |body|
  {
    IndexOfPrefix(body, rest, HASH, 0);
  }

  /** Cutting an orderly stream anywhere never makes the pending part look too long. */
  lemma PendingOfOrderly(buf: seq<Byte>, rest: seq<Byte>)
    requires Orderly(buf + rest) && !Complete(buf)
    ensures PendingFits(buf)
  {
    PendingLength(buf, rest);
  }

  /**
    The bound is exact: a packet may be cut anywhere without being given up while it is
    pending if and only if noise and payload together take at most 8 MiB and one byte.
  */
  lemma CutsFitIffOrderly(s: seq<Byte>)
    requires Decode(s).Packet?
    ensures Decode(s).length <= |s|
    ensures (forall k :: 0 <= k < Decode(s).length ==> PendingFits(s[..k])) <==> Orderly(s)
  {
    PacketReadable(s);
    var length := Decode(s).length;
    if Orderly(s) {
      forall k | 0 <= k < length ensures PendingFits(s[..k]) {
        assert s[..k] + s[k..] == s;
        CutFits(s, s[..k], s[k..]);
      }
    } else {
      CutTooLong(s, length - 1);
    }
  }

  lemma CutFits(s: seq<Byte>, cut: seq<Byte>, rest: seq<Byte>)
    requires s == cut + rest && Decode(s).Packet? && Orderly(s) && |cut| < Decode(s).length
    ensures PendingFits(cut)
  {
    CutIncomplete(s, cut, rest);
    PendingOfOrderly(cut, rest);
  }

  lemma CutTooLong(s: seq<Byte>, k: nat)
    requires MAX_PAYLOAD + 4 < k <= |s|
    ensures !PendingFits(s[..k])
  {
    assert |s[..k]| == k;
  }

  lemma CutIncomplete(s: seq<Byte>, cut: seq<Byte>, rest: seq<Byte>)
    requires s == cut + rest && Decode(s).Packet? && |cut| < Decode(s).length
    ensures !Complete(cut)
  {
    if Complete(cut) {
      CompletePrefix(cut, rest);
      CompleteLength(cut);
    }
  }

  lemma CompleteLength(s: seq<Byte>)
    requires Complete(s)
    ensures IndexOf(s, DOLLAR, 0) + IndexOf(Body(s), HASH, 0) + 4 <= |s|
  {
  }
}
