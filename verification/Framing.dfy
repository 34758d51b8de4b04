/** Message frames on a peer connection (hubnet/rlpx.go, hubnet/handle.go). */
module Framing {
  import opened Options
  import opened Words
  const MAX_UINT24: nat := 0xFF_FFFF
  const HEAD: nat := 32

  /** size is set by the sender; it need not be the length of the payload. */
  datatype Msg = Msg(code: uint8, size: uint32, payload: seq<uint8>)

  /** Eof: nothing left where bytes were wanted; UnexpectedEof: some but too few. */
  datatype Error = Overflow | Eof | UnexpectedEof | BadCode

  datatype Result<+T> = Ok(value: T) | Err(error: Error)

  // ---------- One-byte integers in RLP (Appendix B of the Ethereum Yellow Paper) ----------

  /** Zero is the empty string, a small number is its own encoding, a larger one
      is a string of length one. */
  function EncodeCode(code: uint8): seq<uint8> {
    if code == 0 then [0x80] else if code < 128 then [code] else [0x81, code]
  }

  /** Decoding from exactly one byte: a zero byte is not canonical, and 0x81 and
      above announce bytes that are not there. */
  function DecodeCode(b: uint8): Result<uint8> {
    if b == 0x80 then Ok(0) else if 0 < b < 128 then Ok(b) else Err(BadCode)
  }

  // ---------- Frames ----------

  function PutInt24(v: uint32): seq<uint8> {
    [v / 0x1_0000 % 0x100, v / 0x100 % 0x100, v % 0x100]
  }

  /** The rest of the frame head is not used. */
  function Padding(): (s: seq<uint8>)
    ensures |s| == HEAD - 3
  {
    seq(HEAD - 3, _ => 0)
  }

  function ReadInt24(b: seq<uint8>): uint32
    requires |b| >= 3
  {
    var b0: nat, b1: nat, b2: nat := b[0], b[1], b[2];
    b2 + b1 * 0x100 + b0 * 0x1_0000
  }

  /** The sum of the two lengths wraps at 32 bits before it is checked. */
  function FrameSize(msg: Msg): uint32 {
    (|EncodeCode(msg.code)| + msg.size) % U32
  }

  function Frame(msg: Msg): Result<seq<uint8>> {
    if FrameSize(msg) > MAX_UINT24 then Err(Overflow)
    else Ok(PutInt24(FrameSize(msg)) + Padding() + EncodeCode(msg.code) + msg.payload)
  }

  /** io.ReadFull of n bytes when `left` bytes are left. */
  function Short(n: nat, left: nat): Option<Error> {
    if left >= n then None else if left == 0 then Some(Eof) else Some(UnexpectedEof)
  }

  /** Reads one message off the front of the stream; the subtraction wraps. */
  function Parse(stream: seq<uint8>): (r: Result<(Msg, seq<uint8>)>)
    ensures r.Ok? ==> |r.value.1| < |stream|
  {
    match Short(HEAD, |stream|)
    case Some(e) => Err(e)
    case None =>
      var fsize := ReadInt24(stream[..HEAD]);
      match Short(1, |stream| - HEAD)
      case Some(e) => Err(e)
      case None =>
        match DecodeCode(stream[HEAD])
        case Err(e) => Err(e)
        case Ok(code) =>
          var size := (fsize - 1) % U32;
          match Short(size, |stream| - (HEAD + 1))
          case Some(e) => Err(e)
          case None =>
            Ok((Msg(code, size, stream[HEAD + 1..HEAD + 1 + size]), stream[HEAD + 1 + size..]))
  }

  /** A message the receiver gets back as it was sent. */
  predicate Sendable(msg: Msg) {
    msg.code < 128 && msg.size == |msg.payload|
  }

  lemma Int24RoundTrip(v: uint32)
    requires v <= MAX_UINT24
    ensures ReadInt24(PutInt24(v)) == v
  {
  }

  /** What a message puts on the wire. */
  lemma WrittenLayout(msg: Msg)
    requires Frame(msg).Ok?
    ensures var bytes, n := Frame(msg).value, |EncodeCode(msg.code)|;
            && |bytes| == HEAD + n + |msg.payload|
            && ReadInt24(bytes[..HEAD]) == FrameSize(msg)
            && bytes[HEAD] == EncodeCode(msg.code)[0] && bytes[HEAD + n..] == msg.payload
  {
    var bytes := Frame(msg).value;
    var f := FrameSize(msg);
    assert bytes[0] == PutInt24(f)[0] && bytes[1] == PutInt24(f)[1] && bytes[2] == PutInt24(f)[2];
    Int24RoundTrip(f);
  }

  /** One message, whatever follows it: it is read back as sent and the rest of
      the stream is left exactly when its code is below 128 and its size is the
      length of its payload. */
  lemma ReadWrittenIff(msg: Msg, rest: seq<uint8>)
    requires Frame(msg).Ok?
    ensures Parse(Frame(msg).value + rest) == Ok((msg, rest)) <==> Sendable(msg)
  {
    var bytes := Frame(msg).value;
    var stream := bytes + rest;
    WrittenLayout(msg);
    assert stream[..HEAD] == bytes[..HEAD];
    assert stream[HEAD] == EncodeCode(msg.code)[0];
    if msg.code < 128 && msg.size == |msg.payload| {
      FrameFits(msg);
      assert stream[HEAD + 1..HEAD + 1 + msg.size] == msg.payload && stream[HEAD + 1 + msg.size..] == rest;
    }
  }

  /** A message that is not too long: the frame size has not wrapped, or it has
      wrapped to zero and the reader's subtraction wraps it back. */
  lemma FrameFits(msg: Msg)
    requires Frame(msg).Ok? && Sendable(msg)
    ensures FrameSize(msg) == 1 + msg.size || (FrameSize(msg) == 0 && msg.size == U32 - 1)
    ensures (FrameSize(msg) - 1) % U32 == msg.size
  {
  }

  /** A message is written exactly when its payload with the code fits in 24 bits, or
      is so long that the 32-bit sum wraps to zero. */
  lemma FrameIsWrittenIff(msg: Msg)
    requires Sendable(msg)
    ensures Frame(msg).Ok? <==> |msg.payload| < 0xFF_FFFF || |msg.payload| == 0xFFFF_FFFF
    ensures Frame(msg).Err? ==> Frame(msg).error == Overflow
  {
  }

  /** The wire format: three bytes of size, most significant first, a head filled
      with zeros, one byte of code, the payload. */
  lemma WireFormat(msg: Msg)
    requires Frame(msg).Ok? && Sendable(msg)
    ensures var bytes, size := Frame(msg).value, (1 + msg.size) % U32;
            && |bytes| == 33 + |msg.payload|
            && bytes[0] as nat * 0x1_0000 + bytes[1] as nat * 0x100 + bytes[2] as nat == size
            && (forall i :: 3 <= i < 32 ==> bytes[i] == 0)
            && bytes[32] == (if msg.code == 0 then 0x80 else msg.code) && bytes[33..] == msg.payload
  {
    WrittenLayout(msg);
    var bytes, f := Frame(msg).value, FrameSize(msg);
    assert bytes[..HEAD][0] == bytes[0] && bytes[..HEAD][1] == bytes[1] && bytes[..HEAD][2] == bytes[2];
    forall i | 3 <= i < 32 ensures bytes[i] == 0 {
      assert bytes[i] == Padding()[i - 3];
    }
  }

  /** The other way round: what is read off any stream would be written as the bytes
      it was read from, but for the unused part of the head. */
  lemma ReadWouldBeWritten(stream: seq<uint8>)
    requires Parse(stream).Ok?
    ensures var (msg, rest) := Parse(stream).value;
            && Sendable(msg) && Frame(msg).Ok?
            && stream[..3] == Frame(msg).value[..3] && stream[HEAD..] == Frame(msg).value[HEAD..] + rest
  {
    var (msg, rest) := Parse(stream).value;
    var fsize := ReadInt24(stream[..HEAD]);
    Int24Bytes(stream[..HEAD]);
    assert stream[..HEAD][..3] == stream[..3];
    hide PutInt24, ReadInt24;
    assert FrameSize(msg) == fsize <= MAX_UINT24;
    assert Frame(msg).value[..3] == PutInt24(fsize);
    assert EncodeCode(msg.code) == [stream[HEAD]];
    assert Frame(msg).value[HEAD..] == [stream[HEAD]] + msg.payload;
    assert stream[HEAD..] == [stream[HEAD]] + msg.payload + rest;
  }

  lemma Int24Bytes(b: seq<uint8>)
    requires |b| >= 3
    ensures PutInt24(ReadInt24(b)) == b[..3] && ReadInt24(b) <= MAX_UINT24
  {
    Digits(b[0], b[1], b[2]);
  }

  lemma Digits(b0: nat, b1: nat, b2: nat)
    requires b0 < 0x100 && b1 < 0x100 && b2 < 0x100
    ensures var v := b2 + b1 * 0x100 + b0 * 0x1_0000;
            v / 0x1_0000 % 0x100 == b0 && v / 0x100 % 0x100 == b1 && v % 0x100 == b2 && v <= MAX_UINT24
  {
    var v := b2 + b1 * 0x100 + b0 * 0x1_0000;
    assert v / 0x100 == b1 + b0 * 0x100;
    assert v / 0x1_0000 == b0;
  }

  // ---------- Streams ----------

  /** The bytes of several messages, one after the other. */
  function WriteAll(msgs: seq<Msg>): seq<uint8>
    requires forall m :: m in msgs ==> Frame(m).Ok?
  {
    if msgs == [] then [] else Frame(msgs[0]).value + WriteAll(msgs[1..])
  }

  /** The receive loop: messages until the first error, and that error. */
  function ReadAll(stream: seq<uint8>): (seq<Msg>, Error)
    decreases |stream|
  {
    match Parse(stream)
    case Err(e) => ([], e)
    case Ok((msg, rest)) =>
      var (msgs, e) := ReadAll(rest);
      ([msg] + msgs, e)
  }

  predicate AllSendable(msgs: seq<Msg>) {
    forall m :: m in msgs ==> Frame(m).Ok? && Sendable(m)
  }

  /** How many messages lie whole in the first k bytes. */
  function Whole(msgs: seq<Msg>, k: int): nat
    requires AllSendable(msgs)
  {
    if msgs == [] || k < |Frame(msgs[0]).value| then 0
    else 1 + Whole(msgs[1..], k - |Frame(msgs[0]).value|)
  }

  /** A frame cut short is never taken for a message. */
  lemma CutFrameFails(msg: Msg, k: nat)
    requires Frame(msg).Ok? && Sendable(msg) && k < |Frame(msg).value|
    ensures Parse(Frame(msg).value[..k]).Err?
    ensures Parse(Frame(msg).value[..k]).error == Eof <==> k == 0 || k == HEAD || k == HEAD + 1
  {
    var bytes := Frame(msg).value;
    WrittenLayout(msg);
    FrameFits(msg);
    if k >= HEAD { assert bytes[..k][..HEAD] == bytes[..HEAD]; }
    if k > HEAD { assert bytes[..k][HEAD] == bytes[HEAD]; }
  }

  /** Whatever part of the stream has arrived, the receiver gets exactly the
      messages that lie whole in it, in order and as sent, then an error; the
      error is a plain end of stream when nothing or everything arrived. */
  lemma {:induction false} PrefixIsRead(msgs: seq<Msg>, k: nat)
    requires AllSendable(msgs) && k <= |WriteAll(msgs)|
    ensures var n := Whole(msgs, k);
            n <= |msgs| && ReadAll(WriteAll(msgs)[..k]).0 == msgs[..n]
    ensures k == |WriteAll(msgs)| ==> Whole(msgs, k) == |msgs| && ReadAll(WriteAll(msgs)[..k]).1 == Eof
    decreases |msgs|
  {
    hide Frame, Parse, Sendable, ReadAll;
    if msgs == [] {
      assert WriteAll(msgs)[..k] == [];
      EmptyStream();
    } else {
      var frame, rest := Frame(msgs[0]).value, WriteAll(msgs[1..]);
      assert msgs[0] in msgs && WriteAll(msgs) == frame + rest;
      if k < |frame| {
        assert WriteAll(msgs)[..k] == frame[..k];
        CutFrameFails(msgs[0], k);
        ReadAllStops(frame[..k]);
      } else {
        assert WriteAll(msgs)[..k] == frame + rest[..k - |frame|];
        ReadAllGoesOn(msgs[0], rest[..k - |frame|]);
        PrefixIsRead(msgs[1..], k - |frame|);
        assert msgs[..Whole(msgs, k)] == [msgs[0]] + msgs[1..][..Whole(msgs[1..], k - |frame|)];
      }
    }
  }

  lemma EmptyStream()
    ensures ReadAll([]) == ([], Eof)
  {
  }

  lemma ReadAllStops(stream: seq<uint8>)
    requires Parse(stream).Err?
    ensures ReadAll(stream) == ([], Parse(stream).error)
  {
  }

  lemma ReadAllGoesOn(msg: Msg, rest: seq<uint8>)
    requires Frame(msg).Ok? && Sendable(msg)
    ensures ReadAll(Frame(msg).value + rest) == ([msg] + ReadAll(rest).0, ReadAll(rest).1)
  {
    ReadWrittenIff(msg, rest);
    hide Frame, Parse, Sendable;
  }

  /** The whole stream gives the whole list and consumes every byte. */
  lemma StreamRoundTrip(msgs: seq<Msg>)
    requires AllSendable(msgs)
    ensures ReadAll(WriteAll(msgs)) == (msgs, Eof)
  {
    hide Frame, Parse, WriteAll, ReadAll, Whole;
    PrefixIsRead(msgs, |WriteAll(msgs)|);
    assert WriteAll(msgs)[..|WriteAll(msgs)|] == WriteAll(msgs) && msgs[..|msgs|] == msgs;
  }

  // ---------- The connection as an object ----------

  /** What one side has written and what it has still to read. */
  class P2pRW {
    var sent: seq<uint8>
    var incoming: seq<uint8>

    constructor (incoming: seq<uint8>)
      ensures sent == [] && this.incoming == incoming
    {
      this.sent, this.incoming := [], incoming;
    }

    method Write(b: seq<uint8>)
      modifies `sent
      ensures sent == old(sent) + b
    {
      sent := sent + b;
    }

    /** io.ReadFull: on an error the bytes that were there are gone. */
    method ReadFull(n: nat) returns (r: Result<seq<uint8>>)
      modifies `incoming
      ensures match Short(n, |old(incoming)|)
              case None => r == Ok(old(incoming)[..n]) && incoming == old(incoming)[n..]
              case Some(e) => r == Err(e) && incoming == []
    {
      if |incoming| < n {
        r := Err(if |incoming| == 0 then Eof else UnexpectedEof);
        incoming := [];
      } else {
        r := Ok(incoming[..n]);
        incoming := incoming[n..];
      }
    }

    method WriteMsg(msg: Msg) returns (ok: bool)
      modifies `sent
      ensures ok == Frame(msg).Ok?
      ensures sent == if ok then old(sent) + Frame(msg).value else old(sent)
    {
      var ptype := EncodeCode(msg.code);
      var fsize: uint32 := (|ptype| + msg.size) % U32;
      if fsize > MAX_UINT24 { return false; }
      var headbuf := PutInt24(fsize) + Padding();
      Write(headbuf);
      Write(ptype);
      Write(msg.payload);
      assert sent == old(sent) + (headbuf + ptype + msg.payload);
      return true;
    }

    method ReadMsg() returns (r: Result<Msg>)
      modifies `incoming
      ensures match Parse(old(incoming))
              case Ok((msg, rest)) => r == Ok(msg) && incoming == rest
              case Err(e) => r == Err(e)
      ensures r.Ok? ==> |incoming| < |old(incoming)|
    {
      ghost var stream := incoming;
      var headbuf := ReadFull(HEAD);
      if headbuf.Err? { return Err(headbuf.error); }
      var fsize := ReadInt24(headbuf.value);
      var codebuf := ReadFull(1);
      if codebuf.Err? { return Err(codebuf.error); }
      var code := DecodeCode(codebuf.value[0]);
      if code.Err? { return Err(code.error); }
      var size: uint32 := (fsize - 1) % U32;
      var framebuf := ReadFull(size);
      if framebuf.Err? { return Err(framebuf.error); }
      assert framebuf.value == stream[HEAD + 1..HEAD + 1 + size] && incoming == stream[HEAD + 1 + size..];
      return Ok(Msg(code.value, size, framebuf.value));
    }

    /** handleNewStream: hands on each message; resets the stream unless it ended. */
    method HandleNewStream() returns (msgs: seq<Msg>, reset: bool)
      modifies `incoming
      ensures (msgs, reset) == (ReadAll(old(incoming)).0, ReadAll(old(incoming)).1 != Eof)
    {
      msgs := [];
      assert msgs + ReadAll(incoming).0 == ReadAll(incoming).0;
      while true
        invariant ReadAll(old(incoming)) == (msgs + ReadAll(incoming).0, ReadAll(incoming).1)
        decreases |incoming|
      {
        ghost var later := ReadAll(incoming).0;
        var r := ReadMsg();
        if r.Err? {
          assert later == [] && msgs + later == msgs;
          return msgs, r.error != Eof;
        }
        assert later == [r.value] + ReadAll(incoming).0;
        assert msgs + later == msgs + [r.value] + ReadAll(incoming).0;
        msgs := msgs + [r.value];
      }
    }
  }
}
