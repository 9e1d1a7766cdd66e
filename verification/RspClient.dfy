/**
  The GDB remote serial client: buffered reads, acknowledged writes, non-blocking polling,
  nested deadlines and permanent poisoning.

  The socket delivers its chunks in order; behind them the peer stays silent or, if it `closes`,
  ends the connection. Unless the client is `reliable`, any wait may run out of time and any
  read, write or timeout call may fail.
*/
module RspClient {
  import opened Base
  import opened RspCodec

  function Flatten(chunks: seq<seq<Byte>>): seq<Byte> {
    if chunks == [] then [] else chunks[0] + Flatten(chunks[1..])
  }

  /** The first byte from `from` on that ends the wait for an acknowledgement. */
  function FirstAnswer(s: seq<Byte>, from: nat): (i: nat)
    requires from <= |s|
    ensures from <= i <= |s| && (i < |s| ==> s[i] == PLUS || s[i] == DOLLAR)
    decreases |s| - from
  {
    if from == |s| || s[from] == PLUS || s[from] == DOLLAR then from else FirstAnswer(s, from + 1)
  }

  lemma NoAnswerBefore(s: seq<Byte>, from: nat)
    requires from <= |s|
    ensures forall j :: from <= j < FirstAnswer(s, from) ==> s[j] != PLUS && s[j] != DOLLAR
    decreases |s| - from
  {
    if from < |s| && s[from] != PLUS && s[from] != DOLLAR {
      NoAnswerBefore(s, from + 1);
    }
  }

  /** How many bytes the wait for an acknowledgement takes; a reply's header is not taken. */
  function AckScan(s: seq<Byte>): (n: Option<nat>)
    ensures n.Some? ==> n.value <= ACK_TRIES && n.value <= |s| && DOLLAR !in s[..n.value]
  {
    NoAnswerBefore(s, 0);
    var i := FirstAnswer(s, 0);
    if i == |s| || i >= ACK_TRIES then None else if s[i] == PLUS then Some(i + 1) else Some(i)
  }

  lemma AnswerAt(s: seq<Byte>, i: nat)
    requires i < |s| && i <= FirstAnswer(s, 0)
    ensures s[i] == PLUS ==> FirstAnswer(s, 0) == i
    ensures s[i] == DOLLAR ==> FirstAnswer(s, 0) == i
    ensures s[i] != PLUS && s[i] != DOLLAR ==> i + 1 <= FirstAnswer(s, 0)
  {
    NoAnswerBefore(s, 0);
  }

  lemma StopAt(s: seq<Byte>, b: Byte, i: nat)
    requires i < |s| && i <= IndexOf(s, b, 0)
    ensures s[i] == b ==> IndexOf(s, b, 0) == i
    ensures s[i] != b ==> i + 1 <= IndexOf(s, b, 0)
  {
    NotBefore(s, b, 0);
  }

  function Naks(s: seq<Byte>): nat {
    if s == [] then 0 else Naks(s[..|s| - 1]) + (if s[|s| - 1] == MINUS then 1 else 0)
  }

  /**
    The wait ends behind the first acknowledgement, or before the first header, among the
    first eight bytes.
  */
  lemma AckScanIs(s: seq<Byte>)
    ensures AckScan(s).None? <==> NoAnswerIn(if |s| < 8 then s else s[..8])
    ensures forall i :: 0 <= i < |s| && i < 8 && NoAnswerIn(s[..i]) ==>
      && (s[i] == '+' as int ==> AckScan(s) == Some(i + 1))
      && (s[i] == '$' as int ==> AckScan(s) == Some(i))
  {
    hide NoAnswerIn;
    AnswerIsFirst(s, FirstAnswer(s, 0));
    forall i | 0 <= i < |s| && i < 8 && NoAnswerIn(s[..i])
      ensures s[i] == '+' as int ==> AckScan(s) == Some(i + 1)
      ensures s[i] == '$' as int ==> AckScan(s) == Some(i)
    {
      AnswerIsFirst(s, i);
    }
  }

  lemma AnswerIsFirst(s: seq<Byte>, i: nat)
    requires i <= |s|
    ensures i < |s| && NoAnswerIn(s[..i]) && (s[i] == '+' as int || s[i] == '$' as int) ==> FirstAnswer(s, 0) == i
    ensures NoAnswerIn(if |s| < 8 then s else s[..8]) <==> FirstAnswer(s, 0) == |s| || FirstAnswer(s, 0) >= 8
  {
    NoAnswerBefore(s, 0);
    var k := FirstAnswer(s, 0);
    if k < i {
      assert s[..i][k] == s[k];
    }
    var first := if |s| < 8 then s else s[..8];
    if k < |first| {
      assert first[k] == s[k];
    }
    assert forall j :: 0 <= j < |first| ==> first[j] == s[j];
  }

  predicate NoAnswerIn(s: seq<Byte>) {
    forall j :: 0 <= j < |s| ==> s[j] != '+' as int && s[j] != '$' as int
  }

  /** Naks are the minus signs, and copies follow one another. */
  lemma {:induction false} NaksAre(a: seq<Byte>, b: Byte)
    ensures Naks([]) == 0 && Naks(a + [b]) == Naks(a) + if b == '-' as int then 1 else 0
  {
    assert (a + [b])[..|a|] == a;
  }

  lemma {:induction false} CopiesAre(s: seq<Byte>, n: nat)
    ensures |Copies(s, n)| == n * |s|
    ensures forall i :: 0 <= i < n ==> i * |s| + |s| <= n * |s| && Copies(s, n)[i * |s|..i * |s| + |s|] == s
  {
    if n > 0 {
      CopiesAre(s, n - 1);
      var front := Copies(s, n - 1);
      assert n * |s| == (n - 1) * |s| + |s|;
      forall i | 0 <= i < n ensures i * |s| + |s| <= n * |s| && Copies(s, n)[i * |s|..i * |s| + |s|] == s {
        if i < n - 1 {
          assert Copies(s, n)[i * |s|..i * |s| + |s|] == front[i * |s|..i * |s| + |s|];
        }
      }
    }
  }

  lemma NaksStep(s: seq<Byte>, i: nat)
    ensures i < |s| ==> Naks(s[..i + 1]) == Naks(s[..i]) + (if s[i] == MINUS then 1 else 0)
  {
    if i < |s| {
      assert s[..i + 1][..i] == s[..i];
    }
  }

  function Copies(s: seq<Byte>, n: nat): seq<Byte> {
    if n == 0 then [] else Copies(s, n - 1) + s
  }

  const ACK_TRIES: nat := 8

  datatype AckStep = Acked | NextTry | Broken

  datatype Outcome<+T> = Done(value: T) | Fault

  datatype GdbError = Poisoned | NotBegun | Failed

  datatype Reply = Replied(packet: Option<seq<Byte>>) | Error(error: GdbError)

  datatype Call =
    | Send(payload: seq<Byte>)
    | SendNoReply(payload: seq<Byte>)
    | RecvReply
    | Interrupt
    | RequestInterrupt
    | Poll

  lemma NextSlice(s: seq<Byte>, k: nat)
    ensures k < |s| ==> s[k..][0] == s[k] && s[k..][1..] == s[k + 1..] && s[..k + 1] == s[..k] + [s[k]]
  {
  }

  lemma UnescapeStep(raw: seq<Byte>, i: nat, out: seq<Byte>)
    requires i < |raw|
    ensures raw[i] == ESCAPE && i + 1 < |raw| ==>
      out + Unescape(raw[i..]) == out + [Flip(raw[i + 1])] + Unescape(raw[i + 2..])
    ensures !(raw[i] == ESCAPE && i + 1 < |raw|) ==>
      out + Unescape(raw[i..]) == out + [raw[i]] + Unescape(raw[i + 1..])
  {
    var rest := raw[i..];
    if raw[i] == ESCAPE && i + 1 < |raw| {
      assert rest[2..] == raw[i + 2..];
      assert Unescape(rest) == [Flip(raw[i + 1])] + Unescape(raw[i + 2..]);
    } else {
      assert rest[1..] == raw[i + 1..];
      assert Unescape(rest) == [raw[i]] + Unescape(raw[i + 1..]);
    }
  }

  /** What is left behind a readable packet. */
  lemma BehindPacket(s: seq<Byte>)
    requires Readable(s)
    ensures Body(s)[IndexOf(Body(s), HASH, 0) + 1..][2..] == s[IndexOf(s, DOLLAR, 0) + IndexOf(Body(s), HASH, 0) + 4..]
  {
  }

  lemma FirstPacket(s: seq<Byte>, payload: seq<Byte>, n: nat)
    requires Decode(s) == Packet(payload, n)
    ensures n <= |s| && Packets(s) == [payload] + Packets(s[n..]) && (Clean(s) ==> Clean(s[n..]))
  {
    PacketReadable(s);
  }

  /** One decoded packet moves from what is to come to what has been got. */
  lemma PacketsStep(goal: seq<seq<Byte>>, got: seq<seq<Byte>>, s: seq<Byte>, payload: seq<Byte>, n: nat)
    requires goal == got + Packets(s) && Decode(s) == Packet(payload, n)
    ensures n <= |s| && goal == got + [payload] + Packets(s[n..]) && (Clean(s) ==> Clean(s[n..]))
  {
    hide Decode, Packets, Clean;
    FirstPacket(s, payload, n);
    assert got + ([payload] + Packets(s[n..])) == got + [payload] + Packets(s[n..]);
  }

  lemma NotCompleteNoPacket(s: seq<Byte>)
    requires !Complete(s)
    ensures Packets(s) == []
  {
  }

  /** The peer has already sent what the call waits for. */
  predicate Answerable(call: Call, s: seq<Byte>) {
    match call
    case Send(payload) => |payload| <= MAX_PAYLOAD && AckScan(s).Some? && Decode(s[AckScan(s).value..]).Packet?
    case SendNoReply(payload) => |payload| <= MAX_PAYLOAD && AckScan(s).Some?
    case RecvReply => Decode(s).Packet?
    case Interrupt => Decode(s).Packet?
    case RequestInterrupt => true
    case Poll => Orderly(s)
  }

  /** What a successful call has done with the stream `s` and to the wire. */
  ghost predicate Answers(call: Call, s: seq<Byte>, wire: seq<Byte>, packet: Option<seq<Byte>>,
                          s': seq<Byte>, wire': seq<Byte>)
  {
    match call
    case Send(payload) =>
      && AckScan(s).Some?
      && var n := AckScan(s).value;
         && TookPacket(s[n..], packet, s')
         && wire' == wire + Copies(Frame(payload), Naks(s[..n]) + 1) + [PLUS]
    case SendNoReply(payload) =>
      && AckScan(s).Some? && packet == None && s' == s[AckScan(s).value..]
      && wire' == wire + Copies(Frame(payload), Naks(s[..AckScan(s).value]) + 1)
    case RecvReply => TookPacket(s, packet, s') && wire' == wire + [PLUS]
    case Interrupt => TookPacket(s, packet, s') && wire' == wire + [3] + [PLUS]
    case RequestInterrupt => packet == None && s' == s && wire' == wire + [3]
    case Poll => if packet.None? then s' == s && wire' == wire else TookPacket(s, packet, s')
  }

  lemma AnswerablePoll(s: seq<Byte>)
    ensures Answerable(Poll, s) <==> Orderly(s)
  {
  }

  lemma PolledAnswer(s: seq<Byte>, wire: seq<Byte>, packet: Option<seq<Byte>>, s': seq<Byte>, wire': seq<Byte>)
    requires if packet.None? then s' == s && wire' == wire else TookPacket(s, packet, s')
    ensures Answers(Poll, s, wire, packet, s', wire')
  {
  }

  lemma AnswerableSend(payload: seq<Byte>, s: seq<Byte>)
    ensures Answerable(Send(payload), s) <==>
      |payload| <= MAX_PAYLOAD && AckScan(s).Some? && Decode(s[AckScan(s).value..]).Packet?
  {
  }

  lemma SentAndAnswered(payload: seq<Byte>, s: seq<Byte>, wire: seq<Byte>, n: nat, behind: seq<Byte>,
                        copied: seq<Byte>, packet: seq<Byte>, s': seq<Byte>, wire': seq<Byte>)
    requires AckScan(s) == Some(n) && behind == s[n..] && copied == wire + Copies(Frame(payload), Naks(s[..n]) + 1)
    requires TookPacket(behind, Some(packet), s') && wire' == copied + [PLUS]
    ensures Answers(Send(payload), s, wire, Some(packet), s', wire')
  {
  }

  ghost predicate TookPacket(s: seq<Byte>, packet: Option<seq<Byte>>, s': seq<Byte>) {
    Decode(s).Packet? && packet == Some(Decode(s).payload) && s' == s[Decode(s).length..]
  }

  /**
    The peer may acknowledge first or answer straight away: either way its answer to a request
    is decoded back to the payload it framed.
  */
  lemma AnswerRoundTrip(request: seq<Byte>, answer: seq<Byte>, rest: seq<Byte>, s: seq<Byte>)
    requires Plain(answer) && |answer| <= MAX_PAYLOAD && |request| <= MAX_PAYLOAD
    requires s == [PLUS] + (Frame(answer) + rest) || s == Frame(answer) + rest
    ensures Answerable(Send(request), s)
    ensures Decode(s[AckScan(s).value..]) == Packet(answer, |answer| + 4)
    ensures s[AckScan(s).value..][|answer| + 4..] == rest
  {
    var tail := Frame(answer) + rest;
    FramedTail(answer, rest);
    AnswerStart(s, tail);
  }

  lemma FramedTail(answer: seq<Byte>, rest: seq<Byte>)
    requires Plain(answer) && |answer| <= MAX_PAYLOAD
    ensures Decode(Frame(answer) + rest) == Packet(answer, |answer| + 4)
    ensures Frame(answer)[0] == DOLLAR && (Frame(answer) + rest)[|answer| + 4..] == rest
  {
    DecodeFrame(answer, rest);
    var frame := Frame(answer);
    assert |frame| == |answer| + 4 && frame[0] == DOLLAR;
  }

  lemma AnswerStart(s: seq<Byte>, tail: seq<Byte>)
    requires tail != [] && tail[0] == DOLLAR && (s == [PLUS] + tail || s == tail)
    ensures AckScan(s).Some? && s[AckScan(s).value..] == tail
  {
    ScanStart(s);
  }

  lemma ScanStart(s: seq<Byte>)
    requires s != []
    ensures s[0] == PLUS ==> AckScan(s) == Some(1)
    ensures s[0] == DOLLAR ==> AckScan(s) == Some(0)
  {
  }

  class GdbRspClient {
    const reliable: bool
    const closes: bool
    var buf: seq<Byte>
    var incoming: seq<seq<Byte>>
    var sent: seq<Byte>
    var poisoned: bool
    var ioDeadline: Option<nat>
    var timeout: nat
    var now: nat
    /** Socket errors so far, and waits that found nothing there. */
    ghost var errors: nat
    ghost var waits: nat

    constructor (reliable: bool, closes: bool, chunks: seq<seq<Byte>>, timeout: nat)
      requires forall i :: 0 <= i < |chunks| ==> chunks[i] != []
      ensures Valid() && this.reliable == reliable && this.closes == closes && Stream() == Flatten(chunks)
      ensures buf == [] && sent == [] && !poisoned && ioDeadline == None && this.timeout == timeout
    {
      this.reliable, this.closes, buf, incoming, sent := reliable, closes, [], chunks, [];
      poisoned, ioDeadline, this.timeout, now := false, None, timeout, 0;
      errors, waits := 0, 0;
    }

    predicate Valid()
      reads this`incoming, this`ioDeadline, this`now
    {
      && (forall i :: 0 <= i < |incoming| ==> incoming[i] != [])
      && (reliable && ioDeadline.Some? ==> now < ioDeadline.value)
    }

    /** Every byte not yet consumed, buffered or still to arrive. */
    function Stream(): seq<Byte>
      reads this`buf, this`incoming
    {
      buf + Flatten(incoming)
    }

    method Tick()
      requires Valid()
      modifies this`now
      ensures Valid() && old(now) <= now
    {
      if !reliable {
        var pause: int :| 0 <= pause;
        now := now + pause;
      }
    }

    /** Whether the exchange still has time. */
    method RemainingBudget() returns (ok: bool)
      requires Valid()
      modifies this`now
      ensures Valid() && old(now) <= now && (reliable ==> ok)
      ensures ok && ioDeadline.Some? ==> now < ioDeadline.value
    {
      Tick();
      ok := ioDeadline.None? || now < ioDeadline.value;
    }

    method MayFail() returns (ok: bool)
      modifies this`errors
      ensures reliable ==> ok
      ensures errors == old(errors) + if ok then 0 else 1
    {
      ok := *;
      ok := ok || reliable;
      if !ok {
        errors := errors + 1;
      }
    }

    /** Whether the socket has something to read right now. */
    method SomethingThere() returns (there: bool)
      modifies this`waits
      ensures waits == old(waits) + if there then 0 else 1
    {
      there := *;
      if !there {
        waits := waits + 1;
      }
    }

    method ReadByte() returns (b: Outcome<Byte>)
      requires Valid()
      modifies this`buf, this`incoming, this`now, this`errors
      ensures Valid()
      ensures b.Done? ==> old(Stream()) != [] && b.value == old(Stream())[0] && Stream() == old(Stream())[1..]
      ensures b.Done? ==> errors == old(errors)
      ensures b.Fault? ==> Stream() == old(Stream())
      ensures old(buf) != [] ==> incoming == old(incoming)
      ensures b.Done? && old(buf) != [] ==> b.value == old(buf)[0] && buf == old(buf)[1..]
      ensures reliable && old(Stream()) != [] ==> b.Done?
    {
      var ok := RemainingBudget();
      if !ok {
        return Fault;
      }
      if buf == [] {
        ok := MayFail();
        if !ok || incoming == [] {
          return Fault;
        }
        buf, incoming := incoming[0], incoming[1..];
      }
      b := Done(buf[0]);
      buf := buf[1..];
    }

    /** Writes bytes in pieces; `done` of them when it fails. */
    method WriteBytes(bytes: seq<Byte>) returns (ok: bool, ghost done: nat)
      requires Valid()
      modifies this`sent, this`now, this`errors
      ensures Valid() && done <= |bytes| && sent == old(sent) + bytes[..done]
      ensures ok ==> sent == old(sent) + bytes && errors == old(errors)
      ensures reliable ==> ok
    {
      done := 0;
      var at: nat := 0;
      var interrupts: int :| 0 <= interrupts;
      while at < |bytes|
        invariant Valid() && done == at <= |bytes| && sent == old(sent) + bytes[..at] && errors == old(errors)
        decreases |bytes| - at, interrupts
      {
        ok := RemainingBudget();
        if !ok {
          return;
        }
        ok := MayFail();
        if !ok {
          return;
        }
        var retry: bool := *;
        if retry && interrupts > 0 {
          interrupts := interrupts - 1;
        } else {
          var n: int :| 1 <= n <= |bytes| - at;
          sent := sent + bytes[at..at + n];
          assert bytes[..at + n] == bytes[..at] + bytes[at..at + n];
          at := at + n;
          done := at;
        }
      }
      assert bytes[..at] == bytes;
      ok := true;
    }

    /**
      Sends one packet and waits for its acknowledgement: at most eight bytes are taken, one
      more copy goes out per NAK, and a reply that is already there keeps its header.
    */
    method WritePacket(payload: seq<Byte>) returns (ok: bool, ghost taken: nat)
      requires Valid()
      modifies this`buf, this`incoming, this`sent, this`now, this`errors
      ensures Valid()
      ensures taken <= 8 && Consumed(old(Stream()), taken)
      ensures ok ==> |payload| <= 8_388_608 && AckScan(old(Stream())) == Some(taken) && errors == old(errors)
      ensures ok ==> sent == old(sent) + Copies(Frame(payload), Naks(old(Stream())[..taken]) + 1)
      ensures |payload| > 8_388_608 ==> !ok && taken == 0 && sent == old(sent)
      ensures reliable && |payload| <= 8_388_608 && AckScan(old(Stream())).Some? ==> ok
    {
      taken := 0;
      assert Stream()[0..] == Stream();
      if |payload| > MAX_PAYLOAD {
        return false, taken;
      }
      var frame := Frame(payload);
      assert old(sent) + Copies(frame, 0) == old(sent);
      ok := Resend(frame, old(sent), 0);
      if ok {
        ok, taken := AwaitAck(frame, old(sent));
      }
    }

    /** The first `k` bytes of `s` are gone, and no other. */
    ghost predicate Consumed(s: seq<Byte>, k: nat)
      reads this`buf, this`incoming
    {
      k <= |s| && Stream() == s[k..]
    }

    method AwaitAck(frame: seq<Byte>, ghost before: seq<Byte>) returns (ok: bool, ghost n: nat)
      requires Valid() && sent == before + Copies(frame, 1)
      modifies this`buf, this`incoming, this`sent, this`now, this`errors
      ensures Valid()
      ensures n <= ACK_TRIES && Consumed(old(Stream()), n)
      ensures ok ==> AckScan(old(Stream())) == Some(n) && errors == old(errors)
      ensures ok ==> sent == before + Copies(frame, Naks(old(Stream())[..n]) + 1)
      ensures reliable && AckScan(old(Stream())).Some? ==> ok
    {
      ghost var s, was, inc := Stream(), buf, incoming;
      n := 0;
      var i: nat := 0;
      while i < ACK_TRIES
        invariant Valid() && n == i <= ACK_TRIES && At(s, was, inc, n) && n <= FirstAnswer(s, 0)
        invariant sent == before + Copies(frame, Naks(s[..n]) + 1) && errors == old(errors)
      {
        var step;
        step, n := TakeAck(frame, before, s, was, inc, n);
        if step != NextTry {
          return step == Acked, n;
        }
        i := i + 1;
      }
      return false, n;
    }

    /** One byte of the wait: the acknowledgement, a reply's header, a NAK, or noise. */
    method TakeAck(frame: seq<Byte>, ghost before: seq<Byte>, ghost s: seq<Byte>, ghost was: seq<Byte>,
                   ghost inc: seq<seq<Byte>>, ghost n: nat)
      returns (step: AckStep, ghost n': nat)
      requires Valid() && At(s, was, inc, n) && n <= FirstAnswer(s, 0) && n < ACK_TRIES
      requires sent == before + Copies(frame, Naks(s[..n]) + 1)
      modifies this`buf, this`incoming, this`sent, this`now, this`errors
      ensures Valid() && n <= n' <= n + 1 && Consumed(s, n')
      ensures step == Acked ==> AckScan(s) == Some(n')
      ensures step != Broken ==> errors == old(errors)
      ensures step != Broken ==> sent == before + Copies(frame, Naks(s[..n']) + 1)
      ensures step == NextTry ==> n' == n + 1 <= FirstAnswer(s, 0) && At(s, was, inc, n')
      ensures step == Broken && reliable ==> AckScan(s).None?
    {
      var b := NextByte(s, was, inc, n);
      if b.Fault? {
        return Broken, n;
      }
      AnswerAt(s, n);
      NaksStep(s, n);
      if b.value == DOLLAR {
        buf := [DOLLAR] + buf;
        PutBack(s, n);
        return Acked, n;
      }
      if b.value == MINUS {
        var ok := Resend(frame, before, Naks(s[..n]) + 1);
        if !ok {
          return Broken, n + 1;
        }
      }
      return if b.value == PLUS then Acked else NextTry, n + 1;
    }

    lemma PutBack(s: seq<Byte>, i: nat)
      requires i < |s| && s[i] == DOLLAR && buf != [] && buf[0] == DOLLAR && buf[1..] + Flatten(incoming) == s[i + 1..]
      ensures Stream() == s[i..]
    {
      assert Stream() == [DOLLAR] + (buf[1..] + Flatten(incoming));
    }

    method Resend(frame: seq<Byte>, ghost before: seq<Byte>, ghost copies: nat) returns (ok: bool)
      requires Valid() && sent == before + Copies(frame, copies)
      modifies this`sent, this`now, this`errors
      ensures Valid() && (reliable ==> ok)
      ensures ok ==> sent == before + Copies(frame, copies + 1) && errors == old(errors)
    {
      ghost var done;
      ok, done := WriteBytes(frame);
      assert before + Copies(frame, copies) + frame == before + (Copies(frame, copies) + frame);
    }

    /** `k` bytes of `s` have been consumed; as long as they lay in `was`, nothing was received. */
    ghost predicate At(s: seq<Byte>, was: seq<Byte>, inc: seq<seq<Byte>>, k: nat)
      reads this`buf, this`incoming
    {
      && k <= |s| && Stream() == s[k..]
      && (k <= |was| ==> incoming == inc && buf == was[k..])
    }

    method NextByte(ghost s: seq<Byte>, ghost was: seq<Byte>, ghost inc: seq<seq<Byte>>, ghost k: nat)
      returns (b: Outcome<Byte>)
      requires Valid() && At(s, was, inc, k)
      modifies this`buf, this`incoming, this`now, this`errors
      ensures Valid()
      ensures b.Done? ==> k < |s| && b.value == s[k] && At(s, was, inc, k + 1) && errors == old(errors)
      ensures b.Fault? ==> Stream() == s[k..] && (reliable ==> k == |s|)
      ensures k < |was| ==> incoming == inc
    {
      b := ReadByte();
      NextSlice(s, k);
      NextSlice(was, k);
    }

    /** The next byte of those up to and including the first `stop`, which is at `end`. */
    method NextUntil(stop: Byte, ghost s: seq<Byte>, ghost was: seq<Byte>, ghost inc: seq<seq<Byte>>, ghost k: nat,
                     ghost end: nat)
      returns (b: Outcome<Byte>)
      requires Valid() && At(s, was, inc, k) && k <= end == IndexOf(s, stop, 0)
      modifies this`buf, this`incoming, this`now, this`errors
      ensures Valid()
      ensures b.Done? ==> k < |s| && b.value == s[k] && At(s, was, inc, k + 1) && errors == old(errors)
      ensures b.Done? ==> if b.value == stop then k == end else k + 1 <= end
      ensures b.Fault? && reliable ==> end == |s|
      ensures k < |was| ==> incoming == inc
    {
      b := NextByte(s, was, inc, k);
      if b.Done? {
        StopAt(s, stop, k);
      }
    }

    /**
      Consumed are the bytes up to and including the next `stop`. Bytes that are already
      buffered are enough when they hold the stop.
    */
    ghost predicate TookUntil(stop: Byte, s: seq<Byte>, was: seq<Byte>, inc: seq<seq<Byte>>)
      reads this`buf, this`incoming
    {
      var k := IndexOf(s, stop, 0);
      k < |s| && At(s, was, inc, k + 1)
    }

    /** Skips to the next header. */
    method SkipPrefix() returns (ok: bool)
      requires Valid()
      modifies this`buf, this`incoming, this`now, this`errors
      ensures Valid()
      ensures ok ==>
        && TookUntil(DOLLAR, old(Stream()), old(buf), old(incoming)) && IndexOf(old(Stream()), DOLLAR, 0) <= MAX_PREFIX
        && errors == old(errors)
      ensures !ok && reliable ==>
        IndexOf(old(Stream()), DOLLAR, 0) == |old(Stream())| || IndexOf(old(Stream()), DOLLAR, 0) > MAX_PREFIX
      ensures IndexOf(old(Stream()), DOLLAR, 0) < |old(buf)| ==> incoming == old(incoming)
    {
      ghost var s, was, inc := Stream(), buf, incoming;
      ghost var end := IndexOf(s, DOLLAR, 0);
      var prefix: nat := 0;
      while true
        invariant Valid() && prefix <= MAX_PREFIX && At(s, was, inc, prefix) && prefix <= end
        invariant errors == old(errors)
        decreases MAX_PREFIX - prefix
      {
        var b := NextUntil(DOLLAR, s, was, inc, prefix, end);
        if b.Fault? {
          return false;
        }
        if b.value == DOLLAR {
          return true;
        }
        prefix := prefix + 1;
        if prefix > MAX_PREFIX {
          return false;
        }
      }
    }

    /** Reads a packet body up to and including its end mark. */
    method ReadBody() returns (ok: bool, raw: seq<Byte>)
      requires Valid()
      modifies this`buf, this`incoming, this`now, this`errors
      ensures Valid()
      ensures ok ==> TookUntil(HASH, old(Stream()), old(buf), old(incoming)) && errors == old(errors)
      ensures ok ==> |raw| == IndexOf(old(Stream()), HASH, 0) <= MAX_PAYLOAD && raw == old(Stream())[..|raw|]
      ensures !ok && reliable ==>
        IndexOf(old(Stream()), HASH, 0) == |old(Stream())| || IndexOf(old(Stream()), HASH, 0) > MAX_PAYLOAD
      ensures IndexOf(old(Stream()), HASH, 0) < |old(buf)| ==> incoming == old(incoming)
    {
      ghost var s, was, inc := Stream(), buf, incoming;
      ghost var end := IndexOf(s, HASH, 0);
      raw := [];
      while true
        invariant Valid() && |raw| <= MAX_PAYLOAD && At(s, was, inc, |raw|) && |raw| <= end
        invariant raw == s[..|raw|] && errors == old(errors)
        decreases MAX_PAYLOAD - |raw|
      {
        ghost var k := |raw|;
        var b := NextUntil(HASH, s, was, inc, k, end);
        if b.Fault? {
          return false, raw;
        }
        NextSlice(s, k);
        if b.value == HASH {
          return true, raw;
        }
        if |raw| == MAX_PAYLOAD {
          return false, raw;
        }
        raw := raw + [b.value];
      }
    }

    method DecodeEscapes(raw: seq<Byte>) returns (out: seq<Byte>)
      ensures out == Unescape(raw)
    {
      out := [];
      var i := 0;
      assert raw[0..] == raw;
      while i < |raw|
        invariant i <= |raw| && Unescape(raw) == out + Unescape(raw[i..])
      {
        UnescapeStep(raw, i, out);
        if raw[i] == ESCAPE && i + 1 < |raw| {
          out := out + [Flip(raw[i + 1])];
          i := i + 2;
        } else {
          out := out + [raw[i]];
          i := i + 1;
        }
      }
    }

    /** Decodes the next packet, acknowledges it, and leaves everything behind it unread. */
    method ReadPacket() returns (r: Outcome<seq<Byte>>)
      requires Valid()
      modifies this`buf, this`incoming, this`sent, this`now, this`errors
      ensures Valid()
      ensures r.Done? ==> Decode(old(Stream())).Packet? && r.value == Decode(old(Stream())).payload
      ensures r.Done? ==> errors == old(errors)
      ensures r.Done? ==> Stream() == old(Stream())[Decode(old(Stream())).length..] && sent == old(sent) + [PLUS]
      ensures reliable && Decode(old(Stream())).Packet? ==> r.Done?
      ensures reliable && Decode(old(Stream())) == BadChecksum ==> r.Fault? && sent == old(sent) + [MINUS]
      ensures Complete(old(buf)) ==> incoming == old(incoming)
    {
      ghost var s := Stream();
      var ok, raw := ReadFramed();
      if !ok {
        return Fault;
      }
      if Readable(s) {
        BehindPacket(s);
      }
      r := ReadTail(raw);
    }

    method ReadFramed() returns (ok: bool, raw: seq<Byte>)
      requires Valid()
      modifies this`buf, this`incoming, this`now, this`errors
      ensures Valid()
      ensures ok ==>
        && IndexOf(old(Stream()), DOLLAR, 0) < |old(Stream())| && IndexOf(old(Stream()), DOLLAR, 0) <= MAX_PREFIX
      ensures ok ==> |raw| == IndexOf(Body(old(Stream())), HASH, 0) <= MAX_PAYLOAD && |raw| < |Body(old(Stream()))|
      ensures ok ==> errors == old(errors)
      ensures ok ==> raw == Body(old(Stream()))[..|raw|] && Stream() == Body(old(Stream()))[|raw| + 1..]
      ensures !ok && reliable ==> !Readable(old(Stream()))
      ensures Complete(old(buf)) ==> incoming == old(incoming) && (ok ==> |buf| >= 2)
    {
      ghost var s, was := Stream(), buf;
      if Complete(buf) {
        CompletePrefix(buf, Flatten(incoming));
      }
      ok := SkipPrefix();
      if !ok {
        return false, [];
      }
      assert Stream() == Body(s);
      assert Complete(was) ==> buf == Body(was);
      ok, raw := ReadBody();
    }

    /** The two checksum bytes, the verdict, and the answer to the peer. */
    method ReadTail(raw: seq<Byte>) returns (r: Outcome<seq<Byte>>)
      requires Valid()
      modifies this`buf, this`incoming, this`sent, this`now, this`errors
      ensures Valid()
      ensures r.Done? ==> |old(Stream())| >= 2 && Stream() == old(Stream())[2..] && sent == old(sent) + [PLUS]
      ensures r.Done? ==> errors == old(errors)
      ensures r.Done? ==>
        && ParseHex(old(Stream())[0], old(Stream())[1]) == Some(Checksum(raw)) && r.value == Unescape(raw)
      ensures reliable && |old(Stream())| >= 2 ==>
        if ParseHex(old(Stream())[0], old(Stream())[1]) == Some(Checksum(raw)) then r.Done?
        else r.Fault? && sent == old(sent) + [MINUS]
      ensures |old(buf)| >= 2 ==> incoming == old(incoming)
    {
      var digits := ReadTwo();
      if digits.Fault? {
        return Fault;
      }
      if ParseHex(digits.value.0, digits.value.1) != Some(Checksum(raw)) {
        var _, _ := WriteBytes([MINUS]);
        return Fault;
      }
      var ok, _ := WriteBytes([PLUS]);
      if !ok {
        return Fault;
      }
      var out := DecodeEscapes(raw);
      return Done(out);
    }

    method ReadTwo() returns (r: Outcome<(Byte, Byte)>)
      requires Valid()
      modifies this`buf, this`incoming, this`now, this`errors
      ensures Valid()
      ensures r.Done? ==> |old(Stream())| >= 2 && Stream() == old(Stream())[2..]
      ensures r.Done? ==> r.value == (old(Stream())[0], old(Stream())[1]) && errors == old(errors)
      ensures reliable && |old(Stream())| >= 2 ==> r.Done?
      ensures |old(buf)| >= 2 ==> incoming == old(incoming)
    {
      ghost var s, was, inc := Stream(), buf, incoming;
      var high := NextByte(s, was, inc, 0);
      if high.Fault? {
        return Fault;
      }
      var low := NextByte(s, was, inc, 1);
      return if low.Fault? then Fault else Done((high.value, low.value));
    }

    /**
      One poll. It takes at most one chunk from the socket, enters the decoder only when the
      buffer already holds a whole packet, and otherwise keeps every byte for a later poll.
    */
    method RecvNonblockingPacket() returns (r: Outcome<Option<seq<Byte>>>)
      requires Valid()
      modifies this`buf, this`incoming, this`sent, this`now, this`errors, this`waits
      ensures Valid()
      ensures incoming == old(incoming) || (old(incoming) != [] && incoming == old(incoming)[1..])
      ensures r == Done(None) ==> Stream() == old(Stream()) && sent == old(sent) && !Complete(buf)
      ensures r == Done(None) && incoming == old(incoming) ==> waits > old(waits) || (incoming == [] && !closes)
      ensures r.Done? ==> errors == old(errors)
      ensures r.Done? && r.value.Some? ==>
        && Decode(old(Stream())).Packet? && r.value.value == Decode(old(Stream())).payload
        && Stream() == old(Stream())[Decode(old(Stream())).length..]
      ensures reliable && Orderly(old(Stream())) && r.Fault? ==>
        closes && incoming == [] && !Complete(buf) && Stream() == old(Stream())
    {
      ghost var s := Stream();
      if Complete(buf) {
        r := ReadBuffered();
        return;
      }
      if reliable && Orderly(s) {
        PendingOfOrderly(buf, Flatten(incoming));
      }
      if !PendingFits(buf) {
        return Fault;
      }
      var ok := ReceiveAvailable();
      if !ok {
        return Fault;
      }
      if Complete(buf) {
        r := ReadBuffered();
        return;
      }
      if reliable && Orderly(s) {
        PendingOfOrderly(buf, Flatten(incoming));
      }
      if !PendingFits(buf) {
        return Fault;
      }
      return Done(None);
    }

    method ReadBuffered() returns (r: Outcome<Option<seq<Byte>>>)
      requires Valid() && Complete(buf)
      modifies this`buf, this`incoming, this`sent, this`now, this`errors
      ensures Valid() && incoming == old(incoming)
      ensures r.Done? ==>
        && errors == old(errors) && r.value.Some? && Decode(old(Stream())).Packet?
        && r.value.value == Decode(old(Stream())).payload
        && Stream() == old(Stream())[Decode(old(Stream())).length..]
      ensures reliable && Orderly(old(Stream())) ==> r.Done?
    {
      DecodeOfPrefix(buf, Flatten(incoming));
      var packet := ReadPacket();
      return if packet.Done? then Done(Some(packet.value)) else Fault;
    }

    /** The non-blocking read: nothing there yet, a chunk, or a failure, as behind the end of the connection. */
    method ReceiveAvailable() returns (ok: bool)
      requires Valid()
      modifies this`buf, this`incoming, this`errors, this`waits
      ensures Valid() && Stream() == old(Stream()) && (reliable && !ok ==> closes && old(incoming) == [])
      ensures incoming == old(incoming) || (old(incoming) != [] && incoming == old(incoming)[1..])
      ensures !ok ==> buf == old(buf) && incoming == old(incoming)
      ensures ok <==> errors == old(errors) && !(closes && old(incoming) == [])
      ensures ok && incoming == old(incoming) ==> waits > old(waits) || incoming == []
    {
      ok := MayFail();
      if !ok || (incoming == [] && closes) {
        return false;
      }
      if incoming == [] {
        return;
      }
      var there := SomethingThere();
      if there {
        assert buf + (incoming[0] + Flatten(incoming[1..])) == buf + incoming[0] + Flatten(incoming[1..]);
        buf, incoming := buf + incoming[0], incoming[1..];
      }
    }

    /** Polls again and again; the packets come out as a blocking reader would take them. */
    method PollRepeatedly(polls: nat) returns (got: seq<seq<Byte>>, failed: bool)
      requires Valid()
      modifies this`buf, this`incoming, this`sent, this`now, this`errors, this`waits
      ensures Valid()
      ensures !failed ==> Packets(old(Stream())) == got + Packets(Stream()) && errors == old(errors)
      ensures !failed && incoming == [] && !Complete(buf) ==> got == Packets(old(Stream()))
      ensures reliable && Clean(old(Stream())) && failed ==> closes && got == Packets(old(Stream()))
    {
      ghost var goal, clean := Packets(Stream()), Clean(Stream());
      got, failed := [], false;
      var i := 0;
      while i < polls && !failed
        invariant Valid()
        invariant !failed ==> goal == got + Packets(Stream()) && errors == old(errors)
        invariant reliable && clean && !failed ==> Clean(Stream())
        invariant reliable && clean && failed ==>
          && closes && incoming == [] && !Complete(buf) && goal == got + Packets(Stream())
      {
        ghost var s := Stream();
        var r := RecvNonblockingPacket();
        if r.Fault? {
          failed := true;
        } else if r.value.Some? {
          PacketsStep(goal, got, s, r.value.value, Decode(s).length);
          got := got + [r.value.value];
        }
        i := i + 1;
      }
      if incoming == [] && !Complete(buf) {
        NotCompleteNoPacket(buf);
        assert buf + [] == buf;
      }
    }

    /** Reads packets with the blocking decoder. */
    method ReadRepeatedly(count: nat) returns (got: seq<seq<Byte>>, failed: bool)
      requires Valid()
      modifies this`buf, this`incoming, this`sent, this`now, this`errors
      ensures Valid()
      ensures !failed ==> |got| == count && Packets(old(Stream())) == got + Packets(Stream())
      ensures !failed ==> errors == old(errors)
      ensures reliable && count <= |Packets(old(Stream()))| ==> !failed
    {
      ghost var goal := Packets(Stream());
      got, failed := [], false;
      while |got| < count && !failed
        invariant Valid() && |got| <= count
        invariant !failed ==> goal == got + Packets(Stream()) && errors == old(errors)
        invariant reliable && count <= |goal| ==> !failed
        decreases count - |got|, !failed
      {
        ghost var s := Stream();
        var r := ReadPacket();
        if r.Fault? {
          failed := true;
        } else {
          PacketsStep(goal, got, s, r.value, Decode(s).length);
          got := got + [r.value];
        }
      }
    }

    // ------------------------------------------------------------- exchanges and poison

    /** Not a data byte has moved. */
    twostate predicate Untouched()
      reads this
    {
      buf == old(buf) && incoming == old(incoming) && sent == old(sent)
    }

    /**
      Opens a bounded exchange. The deadline in force until it ends is never later than the
      enclosing one, nor than this budget allows.
    */
    method Begin(budget: nat) returns (error: Option<GdbError>)
      requires Valid()
      modifies this`ioDeadline, this`now, this`errors
      ensures Valid() && old(now) <= now
      ensures old(poisoned) ==> error == Some(Poisoned)
      ensures error == Some(Poisoned) ==> poisoned
      ensures error.Some? ==> ioDeadline == old(ioDeadline) && error != Some(Failed)
      ensures error.None? ==> errors == old(errors)
      ensures error.None? ==> !poisoned && ioDeadline.Some? && ioDeadline.value <= now + budget
      ensures error.None? && old(ioDeadline).Some? ==> ioDeadline.value <= old(ioDeadline).value
      ensures reliable && !poisoned && budget > 0 ==> error.None?
    {
      if poisoned {
        return Some(Poisoned);
      }
      Tick();
      var deadline := now + budget;
      if budget == 0 {
        return Some(NotBegun);
      }
      var ok := MayFail();
      if !ok {
        return Some(NotBegun);
      }
      ioDeadline := Some(if ioDeadline.Some? && ioDeadline.value < deadline then ioDeadline.value else deadline);
      return None;
    }

    /** Closes it: the outer deadline comes back on every path, and any failure poisons. */
    method End(outer: Option<nat>, r: Reply) returns (s: Reply)
      requires Valid() && ioDeadline.Some? && (outer.Some? ==> ioDeadline.value <= outer.value)
      modifies this`ioDeadline, this`now, this`poisoned, this`errors
      ensures Valid() && ioDeadline == outer
      ensures poisoned == (old(poisoned) || s.Error?)
      ensures s == r || s == Error(Failed)
      ensures s.Replied? ==> errors == old(errors)
      ensures reliable ==> s == r
    {
      var inTime := RemainingBudget();
      ioDeadline := outer;
      var restored := MayFail();
      if r.Error? || !inTime || !restored {
        poisoned := true;
      }
      return if r.Error? then r else if inTime && restored then r else Error(Failed);
    }

    method FinishIo(ok: bool, packet: Option<seq<Byte>>) returns (r: Reply)
      modifies this`poisoned
      ensures r == if ok then Replied(packet) else Error(Failed)
      ensures poisoned == (old(poisoned) || !ok)
    {
      if !ok {
        poisoned := true;
      }
      return if ok then Replied(packet) else Error(Failed);
    }

    /** How a call that has begun ends. */
    twostate predicate Handled(call: Call, r: Reply)
      reads this
    {
      && Valid() && (r.Replied? || r == Error(Failed)) && (r.Replied? ==> errors == old(errors))
      && poisoned == (r.Error? && call != RequestInterrupt)
      && (r.Replied? ==> Answers(call, old(Stream()), old(sent), r.packet, Stream(), sent))
      && (reliable && Answerable(call, old(Stream())) && (call.Poll? ==> !closes) ==> r.Replied?)
    }

    method SendPacket(payload: seq<Byte>) returns (r: Reply)
      requires Valid() && ioDeadline.Some? && !poisoned
      modifies this`buf, this`incoming, this`sent, this`now, this`poisoned, this`errors
      ensures Handled(Send(payload), r)
    {
      hide Answers, Answerable, Decode, AckScan;
      ghost var s, wire := Stream(), sent;
      AnswerableSend(payload, s);
      var packet: Outcome<seq<Byte>> := Fault;
      ghost var n;
      var ok;
      ok, n := WritePacket(payload);
      if ok {
        ghost var behind, copied := Stream(), sent;
        packet := ReadPacket();
        if packet.Done? {
          SentAndAnswered(payload, s, wire, n, behind, copied, packet.value, Stream(), sent);
        }
      }
      r := FinishIo(packet.Done?, if packet.Done? then Some(packet.value) else None);
    }

    method SendPacketNoReply(payload: seq<Byte>) returns (r: Reply)
      requires Valid() && ioDeadline.Some? && !poisoned
      modifies this`buf, this`incoming, this`sent, this`now, this`poisoned, this`errors
      ensures Handled(SendNoReply(payload), r)
    {
      var ok, _ := WritePacket(payload);
      r := FinishIo(ok, None);
    }

    method ReceiveReply() returns (r: Reply)
      requires Valid() && ioDeadline.Some? && !poisoned
      modifies this`buf, this`incoming, this`sent, this`now, this`poisoned, this`errors
      ensures Handled(RecvReply, r)
    {
      var packet := ReadPacket();
      r := FinishIo(packet.Done?, if packet.Done? then Some(packet.value) else None);
    }

    method InterruptAndWait() returns (r: Reply)
      requires Valid() && ioDeadline.Some? && !poisoned
      modifies this`buf, this`incoming, this`sent, this`now, this`poisoned, this`errors
      ensures Handled(Interrupt, r)
    {
      var packet: Outcome<seq<Byte>> := Fault;
      var ok, _ := WriteBytes([3]);
      if ok {
        packet := ReadPacket();
      }
      r := FinishIo(packet.Done?, if packet.Done? then Some(packet.value) else None);
    }

    method PollReply() returns (r: Reply)
      requires Valid() && ioDeadline.Some? && !poisoned
      modifies this`buf, this`incoming, this`sent, this`now, this`poisoned, this`errors, this`waits
      ensures Handled(Poll, r)
    {
      hide Answers, Answerable, Decode;
      ghost var s, wire := Stream(), sent;
      var packet := RecvNonblockingPacket();
      if packet.Done? {
        PolledAnswer(s, wire, packet.value, Stream(), sent);
      }
      AnswerablePoll(s);
      r := FinishIo(packet.Done?, if packet.Done? then packet.value else None);
    }

    /** The body of each call, run while an exchange is open. */
    method Inner(call: Call) returns (r: Reply)
      requires Valid() && ioDeadline.Some? && !poisoned
      modifies this`buf, this`incoming, this`sent, this`now, this`poisoned, this`errors, this`waits
      ensures Handled(call, r)
    {
      match call
      case Send(payload) => r := SendPacket(payload);
      case SendNoReply(payload) => r := SendPacketNoReply(payload);
      case RecvReply => r := ReceiveReply();
      case Interrupt => r := InterruptAndWait();
      case RequestInterrupt =>
        var ok, _ := WriteBytes([3]);
        r := if ok then Replied(None) else Error(Failed);
      case Poll => r := PollReply();
    }

    /** One transport call under its own budget, whatever exchange it is nested in. */
    method Exchange(call: Call, budget: nat) returns (r: Reply)
      requires Valid()
      modifies this
      ensures Valid() && ioDeadline == old(ioDeadline)
      ensures old(poisoned) ==> r == Error(Poisoned) && poisoned && Untouched()
      ensures r.Error? && r.error == NotBegun ==> !poisoned && Untouched()
      ensures r.Error? && r.error == Failed ==> poisoned
      ensures r.Replied? ==> !poisoned && Answers(call, old(Stream()), old(sent), r.packet, Stream(), sent)
      ensures r.Replied? ==> errors == old(errors)
      ensures r.Error? ==> r.error != Poisoned || old(poisoned)
      ensures poisoned <==> old(poisoned) || r == Error(Failed)
      ensures timeout == old(timeout)
      ensures reliable && !old(poisoned) && budget > 0 && Answerable(call, old(Stream())) ==>
        (call.Poll? ==> !closes) ==> r.Replied?
    {
      hide Answers, Answerable;
      ghost var s, wire := Stream(), sent;
      var outer := ioDeadline;
      var error := Begin(budget);
      if error.Some? {
        return Error(error.value);
      }
      assert Stream() == s && sent == wire;
      r := Inner(call);
      r := End(outer, r);
    }

    /** A call without a budget of its own: the client's timeout bounds it unless it is nested. */
    method Invoke(call: Call) returns (r: Reply)
      requires Valid()
      modifies this
      ensures Valid() && ioDeadline == old(ioDeadline)
      ensures old(poisoned) ==> r == Error(Poisoned) && poisoned && Untouched()
      ensures r == Error(Failed) && (old(ioDeadline).None? || call != RequestInterrupt) ==> poisoned
      ensures old(ioDeadline).None? ==> (poisoned <==> old(poisoned) || r == Error(Failed))
      ensures r == Error(NotBegun) ==> !poisoned && Untouched()
      ensures r == Error(Poisoned) ==> old(poisoned)
      ensures timeout == old(timeout)
      ensures r.Replied? ==> !poisoned && Answers(call, old(Stream()), old(sent), r.packet, Stream(), sent)
      ensures r.Replied? ==> errors == old(errors)
    {
      if ioDeadline.None? {
        r := Exchange(call, timeout);
        return;
      }
      if poisoned {
        return Error(Poisoned);
      }
      r := Inner(call);
    }

    /** A call with a budget of its own, or one that takes the client's. */
    method Serve(call: Call, budget: Option<nat>) returns (r: Reply)
      requires Valid() && ioDeadline.None?
      modifies this
      ensures Valid() && ioDeadline.None?
      ensures old(poisoned) ==> r == Error(Poisoned) && Untouched()
      ensures poisoned <==> old(poisoned) || r == Error(Failed)
      ensures r == Error(Poisoned) ==> old(poisoned)
    {
      if budget.Some? {
        r := Exchange(call, budget.value);
      } else {
        r := Invoke(call);
      }
    }

    /** What has not been consumed, and what has been written. */
    function Bytes(): (seq<Byte>, seq<Byte>)
      reads this`buf, this`incoming, this`sent
    {
      (Stream(), sent)
    }

    /**
      Any sequence of calls between exchanges, with budgets or without. Once one of them has
      begun and failed, every later one is refused, and the bytes stay what they were at that
      failure; `moments` holds the bytes behind each call.
    */
    method RunCalls(calls: seq<(Call, Option<nat>)>)
      returns (replies: seq<Reply>, ghost moments: seq<(seq<Byte>, seq<Byte>)>)
      requires Valid() && ioDeadline.None?
      modifies this
      ensures Valid() && ioDeadline.None? && |replies| == |calls| == |moments|
      ensures poisoned <==> old(poisoned) || Error(Failed) in replies
      ensures old(poisoned) ==> Untouched()
      ensures moments != [] ==> moments[|moments| - 1] == Bytes()
      ensures Retired(replies, moments) && Explained(replies, old(poisoned))
    {
      replies, moments := [], [];
      while |replies| < |calls|
        invariant Valid() && ioDeadline.None? && |replies| == |moments| <= |calls|
        invariant poisoned <==> old(poisoned) || Error(Failed) in replies
        invariant old(poisoned) ==> Untouched()
        invariant Retired(replies, moments) && (moments != [] ==> moments[|moments| - 1] == Bytes())
        invariant Explained(replies, old(poisoned))
      {
        var call := calls[|replies|];
        var r := Serve(call.0, call.1);
        ExplainedSnoc(replies, r, old(poisoned));
        RetiredSnoc(replies, moments, r, Bytes());
        replies, moments := replies + [r], moments + [Bytes()];
      }
    }
  }

  /** Every refusal follows a failure, unless the client was poisoned from the start. */
  predicate Explained(replies: seq<Reply>, was: bool) {
    forall i :: 0 <= i < |replies| && replies[i] == Error(Poisoned) ==> was || Error(Failed) in replies[..i]
  }

  lemma ExplainedSnoc(replies: seq<Reply>, r: Reply, was: bool)
    requires Explained(replies, was) && (r == Error(Poisoned) ==> was || Error(Failed) in replies)
    ensures Explained(replies + [r], was)
    ensures Error(Failed) in replies + [r] <==> Error(Failed) in replies || r == Error(Failed)
  {
    assert forall i :: 0 <= i < |replies| ==> (replies + [r])[..i] == replies[..i];
    assert (replies + [r])[..|replies|] == replies;
  }

  /** Behind a failure every call is refused and no byte has moved since. */
  predicate Retired(replies: seq<Reply>, moments: seq<(seq<Byte>, seq<Byte>)>) {
    && |replies| == |moments|
    && forall i, j :: 0 <= i < j < |replies| && replies[i] == Error(Failed) ==>
         && replies[j] == Error(Poisoned) && moments[j] == moments[i]
  }

  lemma RetiredSnoc(replies: seq<Reply>, moments: seq<(seq<Byte>, seq<Byte>)>, r: Reply, moment: (seq<Byte>, seq<Byte>))
    requires Retired(replies, moments)
    requires Error(Failed) in replies ==> r == Error(Poisoned) && moment == moments[|moments| - 1]
    ensures Retired(replies + [r], moments + [moment])
  {
  }
}
